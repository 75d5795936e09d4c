/**
 * The feed page (`promptScoller/script.js`): the `appState` record, the
 * handlers that change it, the render projection, the one-time swipe hint and
 * the visitor id kept in storage.
 */
module Feed {
  import opened Wrappers
  import opened Text
  import opened Views
  import opened IdSets
  import opened Storage
  import Shuffle
  import Uuid

  /** One item of the fetched list; `url` is `afterImage.url`. */
  datatype Image = Image(id: Id, title: string, description: string, likes: int, url: string)

  /** One rendered `<section>`: the image, its heart and bookmark state, and the shown like count. */
  datatype Card = Card(image: Image, liked: bool, saved: bool, likeCount: int)

  /** What the image container shows. */
  datatype Display =
    | Loading             // the loader, before the first render
    | LoadFailed          // "Could not load images."
    | NoResults           // "No images found."
    | Cards(cards: seq<Card>)

  // ---------------------------------------------------------------- views

  /** The search term `handleFilter` matches with: the trimmed input, lower-cased. */
  function SearchTerm(input: string): string {
    Lower(Trim(input))
  }

  /** `img.title.toLowerCase().includes(term) || img.description.toLowerCase().includes(term)` */
  predicate SearchMatch(img: Image, term: string) {
    Contains(Lower(img.title), term) || Contains(Lower(img.description), term)
  }

  /** `img.title.toLowerCase().includes(filterTerm.toLowerCase())`: the description is not consulted. */
  predicate TitleMatch(img: Image, filterTerm: string) {
    Contains(Lower(img.title), Lower(filterTerm))
  }

  /** The list `handleFilter` shows for the lower-cased search term `term`. */
  function SearchView(all: seq<Image>, term: string): seq<Image> {
    Keep(all, (img: Image) => SearchMatch(img, term))
  }

  /** The search shows, in their order, exactly the images that match the term. */
  lemma SearchViewSelects(all: seq<Image>, term: string)
    ensures IsSelection(all, img => SearchMatch(img, term), SearchView(all, term))
    ensures forall img :: img in SearchView(all, term) <==> img in all && SearchMatch(img, term)
  {
    KeepSelection(all, (img: Image) => SearchMatch(img, term));
  }

  /** The list `handleDropdownFilter` shows for the category `filterTerm`. */
  function CategoryView(all: seq<Image>, filterTerm: string): seq<Image> {
    Keep(all, (img: Image) => TitleMatch(img, filterTerm))
  }

  /** A category shows, in their order, exactly the images whose title matches it. */
  lemma CategoryViewSelects(all: seq<Image>, filterTerm: string)
    ensures IsSelection(all, img => TitleMatch(img, filterTerm), CategoryView(all, filterTerm))
    ensures forall img :: img in CategoryView(all, filterTerm) <==> img in all && TitleMatch(img, filterTerm)
  {
    KeepSelection(all, (img: Image) => TitleMatch(img, filterTerm));
  }

  /** The list the saved view shows: `allImages.filter(img => savedItems.has(img._id))`. */
  function SavedView(all: seq<Image>, saved: seq<Id>): seq<Image> {
    Keep(all, (img: Image) => img.id in saved)
  }

  /** The saved view shows, in their order, exactly the images whose id is saved. */
  lemma SavedViewSelects(all: seq<Image>, saved: seq<Id>)
    ensures IsSelection(all, (img: Image) => img.id in saved, SavedView(all, saved))
    ensures forall img :: img in SavedView(all, saved) <==> img in all && img.id in saved
  {
    KeepSelection(all, (img: Image) => img.id in saved);
  }

  /**
   * A search for the empty or an all-white-space input shows the whole list in
   * its order, the same list `handleClearFilter` shows.
   */
  lemma EmptySearchIsAll(all: seq<Image>, input: string)
    requires AllSpace(input)
    ensures SearchView(all, SearchTerm(input)) == all
  {
    TrimAllSpace(input);
    assert SearchTerm(input) == [];
    forall img | img in all ensures SearchMatch(img, SearchTerm(input)) {
      ContainsEmpty(Lower(img.title));
    }
    KeepAll(all, img => SearchMatch(img, SearchTerm(input)));
  }

  /**
   * `handleFilter` writes the trimmed text back into the search box, so a
   * second input event on that text shows the same list.
   */
  lemma SearchStable(all: seq<Image>, input: string)
    ensures SearchView(all, SearchTerm(Trim(input))) == SearchView(all, SearchTerm(input))
  {
    TrimIdempotent(input);
  }

  /** A search whose term occurs in no title and no description renders the placeholder. */
  lemma NoMatchIsEmpty(all: seq<Image>, term: string, liked: seq<Id>, saved: seq<Id>)
    requires forall img :: img in all ==> !SearchMatch(img, term)
    ensures SearchView(all, term) == []
    ensures Render(SearchView(all, term), liked, saved) == NoResults
  {
    KeepNone(all, img => SearchMatch(img, term));
  }

  /** The saved view depends on the set's members only, not on their order. */
  lemma SavedViewMembersOnly(all: seq<Image>, s1: seq<Id>, s2: seq<Id>)
    requires forall x :: x in s1 <==> x in s2
    ensures SavedView(all, s1) == SavedView(all, s2)
  {
    KeepCongruent(all, (img: Image) => img.id in s1, (img: Image) => img.id in s2);
  }

  /**
   * Unsaving the last saved item that the list holds, while the saved view is
   * showing, leaves the saved view empty, so the placeholder is rendered.
   */
  lemma UnsaveLastEmptiesSavedView(all: seq<Image>, saved: seq<Id>, liked: seq<Id>, x: Id)
    requires x in saved
    requires forall img :: img in all && img.id in saved ==> img.id == x
    ensures SavedView(all, Toggle(saved, x)) == []
    ensures Render(SavedView(all, Toggle(saved, x)), liked, Toggle(saved, x)) == NoResults
  {
    KeepNone(all, (img: Image) => img.id in Toggle(saved, x));
  }

  // ---------------------------------------------------------------- render

  /** The images the cards show, in order. */
  function CardImages(cards: seq<Card>): seq<Image> {
    seq(|cards|, k requires 0 <= k < |cards| => cards[k].image)
  }

  /** Each card's heart and bookmark state is its id's membership in the sets. */
  predicate Agrees(d: Display, liked: seq<Id>, saved: seq<Id>) {
    d.Cards? ==>
      forall k :: 0 <= k < |d.cards| ==>
        d.cards[k].liked == (d.cards[k].image.id in liked)
        && d.cards[k].saved == (d.cards[k].image.id in saved)
  }

  /** No two cards carry the same id. */
  predicate DistinctCardIds(d: Display) {
    d.Cards? ==>
      forall i, j :: 0 <= i < j < |d.cards| ==> d.cards[i].image.id != d.cards[j].image.id
  }

  /**
   * `renderImages(images)`: the placeholder for an empty list, otherwise one
   * card per image in order, each showing the image's like count and the
   * heart and bookmark state read from the two sets.
   */
  function Render(images: seq<Image>, liked: seq<Id>, saved: seq<Id>): (d: Display)
    ensures d.NoResults? <==> images == []
    ensures d.NoResults? || d.Cards?
    ensures d.Cards? ==> CardImages(d.cards) == images && Agrees(d, liked, saved)
    ensures d.Cards? ==> forall k :: 0 <= k < |d.cards| ==> d.cards[k].likeCount == images[k].likes
  {
    if images == [] then NoResults
    else
      var cards := seq(|images|, k requires 0 <= k < |images| =>
        Card(images[k], images[k].id in liked, images[k].id in saved, images[k].likes));
      assert CardImages(cards) == images;
      Cards(cards)
  }

  /** Rendering a list without repeated ids gives cards without repeated ids. */
  lemma RenderDistinct(images: seq<Image>, liked: seq<Id>, saved: seq<Id>)
    requires forall i, j :: 0 <= i < j < |images| ==> images[i].id != images[j].id
    ensures DistinctCardIds(Render(images, liked, saved))
  {
  }

  // ---------------------------------------------------------------- like count

  /** The count shown after a click on the heart: one more when liking, one less but not below 0 when unliking. */
  function NextLikeCount(wasLiked: bool, count: int): (r: int)
    ensures wasLiked ==> r >= 0 && (count > 0 ==> r == count - 1) && (count <= 0 ==> r == 0)
    ensures !wasLiked ==> r == count + 1
  {
    if wasLiked then (if count > 0 then count - 1 else 0) else count + 1
  }

  /** Like then unlike restores any count that is not negative, and only those. */
  lemma LikeThenUnlike(count: int)
    ensures NextLikeCount(true, NextLikeCount(false, count)) == count <==> count >= 0
  {
  }

  /** Unlike then like restores the count exactly when it was positive: unliking at 0 stays at 0. */
  lemma UnlikeThenLike(count: int)
    ensures NextLikeCount(false, NextLikeCount(true, count)) == count <==> count >= 1
  {
  }

  /**
   * Two clicks on an unliked card's heart, a like and then an unlike, restore
   * both the liked set and a count that is not negative.
   */
  lemma LikeClickTwice(liked: seq<Id>, id: Id, count: int)
    requires id !in liked && count >= 0
    ensures var liked1 := Toggle(liked, id);
            var count1 := NextLikeCount(id in liked, count);
            Toggle(liked1, id) == liked && NextLikeCount(id in liked1, count1) == count
  {
    ToggleTwice(liked, id);
  }

  /**
   * A save survives a reload: the stored set, read back at the next start, is
   * the old set with the saved id appended.
   */
  lemma SaveSurvivesReload(st: Store, saved: seq<Id>, id: Id)
    requires Distinct(saved) && id !in saved
    ensures var r := LoadIdSet(WriteIdSet(st, SavedKey, Toggle(saved, id)), SavedKey);
            r == Some(saved + [id]) && id in r.value
  {
    ReloadAfterWrite(st, SavedKey, Toggle(saved, id));
  }

  // ---------------------------------------------------------------- visitor id

  /** `runTracker`'s storage effect: keep a stored id, otherwise store a newly generated one. */
  function TrackVisitor(st: Store, rs: seq<Uuid.Nibble>): (r: Store)
    requires |rs| == 31
    ensures Truthy(r, VisitorKey)
    ensures Truthy(st, VisitorKey) ==> r == st
    ensures !Truthy(st, VisitorKey) ==>
      r.Keys == st.Keys + {VisitorKey} && r[VisitorKey].Text? && Uuid.UuidShape(r[VisitorKey].text)
    ensures forall k :: k in st && k != VisitorKey ==> k in r && r[k] == st[k]
  {
    if Truthy(st, VisitorKey) then st
    else
      Uuid.GenerateShape(rs);
      st[VisitorKey := Text(Uuid.Generate(rs))]
  }

  /** Generate once, reuse forever: a second run keeps the id the first run left. */
  lemma TrackVisitorOnce(st: Store, rs1: seq<Uuid.Nibble>, rs2: seq<Uuid.Nibble>)
    requires |rs1| == 31 && |rs2| == 31
    ensures TrackVisitor(TrackVisitor(st, rs1), rs2) == TrackVisitor(st, rs1)
  {
  }

  // ---------------------------------------------------------------- page state

  /** The first card carries the swipe hint after a render: there is a card and the flag is not set. */
  predicate HintOnFirst(d: Display, st: Store) {
    d.Cards? && |d.cards| > 0 && !Truthy(st, FirstImageKey)
  }


  /**
   * Flipping one card's flags to match new sets that differ from the old ones
   * only at that card's id keeps every card in agreement with the sets, as
   * long as no two cards share an id.
   */
  lemma FlipKeepsAgreement(cards: seq<Card>, k: nat, c: Card,
                           liked: seq<Id>, saved: seq<Id>, liked': seq<Id>, saved': seq<Id>)
    requires k < |cards| && c.image == cards[k].image
    requires DistinctCardIds(Cards(cards)) ==> Agrees(Cards(cards), liked, saved)
    requires c.liked == (c.image.id in liked') || (liked' == liked && c.liked == cards[k].liked)
    requires c.saved == (c.image.id in saved') || (saved' == saved && c.saved == cards[k].saved)
    requires forall x :: x != c.image.id ==> (x in liked' <==> x in liked) && (x in saved' <==> x in saved)
    ensures DistinctCardIds(Cards(cards[k := c])) ==> Agrees(Cards(cards[k := c]), liked', saved')
  {
    var d := cards[k := c];
    if DistinctCardIds(Cards(d)) {
      assert forall i :: 0 <= i < |cards| ==> cards[i].image == d[i].image;
      assert DistinctCardIds(Cards(cards));
      assert d[k].liked == (d[k].image.id in liked') && d[k].saved == (d[k].image.id in saved');
      forall j | 0 <= j < |d| && j != k
        ensures d[j].liked == (d[j].image.id in liked') && d[j].saved == (d[j].image.id in saved')
      {
        assert d[j].image.id != c.image.id by {
          if j < k { assert d[j].image.id != d[k].image.id; }
          else { assert d[k].image.id != d[j].image.id; }
        }
      }
    }
  }

  /** The page: `appState`, the search box, the container, the swipe hint and the storage. */
  class FeedPage {
    var allImages: seq<Image>
    var filteredImages: seq<Image>
    var savedItems: seq<Id>
    var likedItems: seq<Id>
    var isShowingSaved: bool
    /** `searchInput.value` */
    var searchValue: string
    var display: Display
    /** The first section carries the `bounce-swipe` class. */
    var hintShown: bool
    /** How many `stopAnimation` listeners are attached to the container. */
    var armedStops: nat
    var storage: Store

    /**
     * The two sets hold no id twice and are exactly what storage holds under
     * their keys; a `stopAnimation` listener is only attached while the
     * onboarding flag is unset.
     */
    ghost predicate StateValid()
      reads this
    {
      && Distinct(likedItems) && Distinct(savedItems)
      && LoadIdSet(storage, LikedKey) == Some(likedItems)
      && LoadIdSet(storage, SavedKey) == Some(savedItems)
      && (armedStops > 0 ==> !Truthy(storage, FirstImageKey))
    }

    /** Besides `StateValid`: every card shows its id's membership, and the hint sits on a card. */
    ghost predicate Valid()
      reads this
    {
      && StateValid()
      && (DistinctCardIds(display) ==> Agrees(display, likedItems, savedItems))
      && (hintShown ==> armedStops > 0 && display.Cards? && |display.cards| > 0)
    }

    /** The initial `appState`: the two sets are read from storage, the lists are empty. */
    constructor (st: Store)
      requires LoadIdSet(st, SavedKey).Some? && LoadIdSet(st, LikedKey).Some?
      ensures Valid()
      ensures allImages == [] && filteredImages == [] && !isShowingSaved && searchValue == ""
      ensures savedItems == LoadIdSet(st, SavedKey).value && likedItems == LoadIdSet(st, LikedKey).value
      ensures storage == st && display == Loading && !hintShown && armedStops == 0
    {
      allImages, filteredImages := [], [];
      savedItems := LoadIdSet(st, SavedKey).value;
      likedItems := LoadIdSet(st, LikedKey).value;
      isShowingSaved, searchValue := false, "";
      display, hintShown, armedStops := Loading, false, 0;
      storage := st;
    }

    /** `renderImages(images)`, which ends with `animateFirstImage()` when there is a card. */
    method Paint(images: seq<Image>)
      requires StateValid()
      modifies this
      ensures Valid()
      ensures display == Render(images, likedItems, savedItems)
      ensures hintShown == HintOnFirst(display, storage)
      ensures armedStops == old(armedStops) + (if hintShown then 1 else 0)
      ensures allImages == old(allImages) && filteredImages == old(filteredImages)
      ensures savedItems == old(savedItems) && likedItems == old(likedItems)
      ensures isShowingSaved == old(isShowingSaved) && searchValue == old(searchValue)
      ensures storage == old(storage)
    {
      display := Render(images, likedItems, savedItems);
      if HintOnFirst(display, storage) {
        hintShown := true;
        armedStops := armedStops + 1;
      } else {
        hintShown := false;
      }
    }

    /** `handleFilter`: the search input changed to `input`. */
    method HandleFilter(input: string)
      requires Valid()
      modifies this
      ensures Valid()
      ensures searchValue == Trim(input) && !isShowingSaved
      ensures filteredImages == SearchView(allImages, SearchTerm(input))
      ensures display == Render(filteredImages, likedItems, savedItems)
      ensures hintShown == HintOnFirst(display, storage)
      ensures armedStops == old(armedStops) + (if hintShown then 1 else 0)
      ensures allImages == old(allImages) && storage == old(storage)
      ensures savedItems == old(savedItems) && likedItems == old(likedItems)
    {
      // the input is written back trimmed and the search term is its lower-cased form
      var view := SearchView(allImages, SearchTerm(input));
      searchValue, isShowingSaved, filteredImages := Trim(input), false, view;
      Paint(view);
    }

    /** `handleDropdownFilter`: a category button whose `data-filter-term` is `filterTerm` was clicked. */
    method HandleDropdownFilter(filterTerm: Option<string>)
      requires Valid()
      modifies this
      ensures Valid()
      ensures filterTerm == None || filterTerm == Some("") ==>
        allImages == old(allImages) && filteredImages == old(filteredImages)
        && savedItems == old(savedItems) && likedItems == old(likedItems)
        && isShowingSaved == old(isShowingSaved) && searchValue == old(searchValue)
        && display == old(display) && hintShown == old(hintShown)
        && armedStops == old(armedStops) && storage == old(storage)
      ensures filterTerm.Some? && filterTerm.value != "" ==>
        searchValue == "" && !isShowingSaved
        && filteredImages == CategoryView(allImages, filterTerm.value)
        && display == Render(filteredImages, likedItems, savedItems)
        && hintShown == HintOnFirst(display, storage)
        && armedStops == old(armedStops) + (if hintShown then 1 else 0)
        && allImages == old(allImages) && storage == old(storage)
        && savedItems == old(savedItems) && likedItems == old(likedItems)
    {
      if filterTerm == None || filterTerm == Some("") {
        return;
      }
      searchValue := "";
      isShowingSaved := false;
      filteredImages := CategoryView(allImages, filterTerm.value);
      Paint(filteredImages);
    }

    /** `handleSavedBtnClick`: show the saved items, whatever the search text was. */
    method HandleSavedBtnClick()
      requires Valid()
      modifies this
      ensures Valid()
      ensures searchValue == "" && isShowingSaved
      ensures filteredImages == SavedView(allImages, savedItems)
      ensures display == Render(filteredImages, likedItems, savedItems)
      ensures hintShown == HintOnFirst(display, storage)
      ensures armedStops == old(armedStops) + (if hintShown then 1 else 0)
      ensures allImages == old(allImages) && storage == old(storage)
      ensures savedItems == old(savedItems) && likedItems == old(likedItems)
    {
      searchValue := "";
      isShowingSaved := true;
      filteredImages := SavedView(allImages, savedItems);
      Paint(filteredImages);
    }

    /** `handleClearFilter`: back to the whole list, in its order. */
    method HandleClearFilter()
      requires Valid()
      modifies this
      ensures Valid()
      ensures searchValue == "" && !isShowingSaved
      ensures filteredImages == allImages
      ensures display == Render(allImages, likedItems, savedItems)
      ensures hintShown == HintOnFirst(display, storage)
      ensures armedStops == old(armedStops) + (if hintShown then 1 else 0)
      ensures allImages == old(allImages) && storage == old(storage)
      ensures savedItems == old(savedItems) && likedItems == old(likedItems)
    {
      searchValue := "";
      isShowingSaved := false;
      filteredImages := allImages;
      Paint(filteredImages);
    }

    /**
     * The `like` branch of `handleContainerClick` on the card at index `k`:
     * flip the id's membership, adjust the shown count, and store the new set.
     * The result of the remote `likeImage`/`unlikeImage` call is discarded.
     */
    method ToggleLike(k: nat)
      requires Valid() && display.Cards? && k < |display.cards|
      modifies this
      ensures Valid()
      ensures var card := old(display.cards[k]);
              var was := card.image.id in old(likedItems);
              && likedItems == Toggle(old(likedItems), card.image.id)
              && display == Cards(old(display.cards)[k := card.(liked := !was,
                                    likeCount := NextLikeCount(was, card.likeCount))])
      ensures storage == WriteIdSet(old(storage), LikedKey, likedItems)
      ensures allImages == old(allImages) && filteredImages == old(filteredImages)
      ensures savedItems == old(savedItems) && isShowingSaved == old(isShowingSaved)
      ensures searchValue == old(searchValue)
      ensures hintShown == old(hintShown) && armedStops == old(armedStops)
    {
      var card := display.cards[k];
      var id := card.image.id;
      var was := id in likedItems;
      var liked' := Toggle(likedItems, id);
      var c := card.(liked := !was, likeCount := NextLikeCount(was, card.likeCount));
      FlipKeepsAgreement(display.cards, k, c, likedItems, savedItems, liked', savedItems);
      display := Cards(display.cards[k := c]);
      StoreLiked(liked');
    }

    /** `appState.likedItems` becomes `s`, which is written through to storage. */
    method StoreLiked(s: seq<Id>)
      requires StateValid() && Distinct(s)
      modifies this
      ensures StateValid()
      ensures likedItems == s && storage == WriteIdSet(old(storage), LikedKey, s)
      ensures allImages == old(allImages) && filteredImages == old(filteredImages)
      ensures savedItems == old(savedItems) && isShowingSaved == old(isShowingSaved)
      ensures searchValue == old(searchValue) && display == old(display)
      ensures hintShown == old(hintShown) && armedStops == old(armedStops)
    {
      KeysDistinct();
      ReloadAfterWrite(storage, LikedKey, s);
      WriteLeavesOthers(storage, LikedKey, s, SavedKey);
      WriteLeavesOthers(storage, LikedKey, s, FirstImageKey);
      likedItems := s;
      storage := WriteIdSet(storage, LikedKey, s);
    }

    /** `appState.savedItems` becomes `s`, which is written through to storage. */
    method StoreSaved(s: seq<Id>)
      requires StateValid() && Distinct(s)
      modifies this
      ensures StateValid()
      ensures savedItems == s && storage == WriteIdSet(old(storage), SavedKey, s)
      ensures allImages == old(allImages) && filteredImages == old(filteredImages)
      ensures likedItems == old(likedItems) && isShowingSaved == old(isShowingSaved)
      ensures searchValue == old(searchValue) && display == old(display)
      ensures hintShown == old(hintShown) && armedStops == old(armedStops)
    {
      KeysDistinct();
      ReloadAfterWrite(storage, SavedKey, s);
      WriteLeavesOthers(storage, SavedKey, s, LikedKey);
      WriteLeavesOthers(storage, SavedKey, s, FirstImageKey);
      savedItems := s;
      storage := WriteIdSet(storage, SavedKey, s);
    }

    /**
     * The `save` branch of `handleContainerClick` on the card at index `k`:
     * flip the card's bookmark and the id's membership, and store the new set;
     * while the saved view is showing, then render the saved view of the new
     * set (`filteredImages` is left as it was).
     */
    method ToggleSave(k: nat)
      requires Valid() && display.Cards? && k < |display.cards|
      modifies this
      ensures Valid()
      ensures var card := old(display.cards[k]);
              && savedItems == Toggle(old(savedItems), card.image.id)
              && (!isShowingSaved ==>
                    display == Cards(old(display.cards)[k := card.(saved := card.image.id !in old(savedItems))])
                    && hintShown == old(hintShown) && armedStops == old(armedStops))
      ensures isShowingSaved ==>
        display == Render(SavedView(allImages, savedItems), likedItems, savedItems)
        && hintShown == HintOnFirst(display, storage)
        && armedStops == old(armedStops) + (if hintShown then 1 else 0)
      ensures storage == WriteIdSet(old(storage), SavedKey, savedItems)
      ensures allImages == old(allImages) && filteredImages == old(filteredImages)
      ensures likedItems == old(likedItems) && isShowingSaved == old(isShowingSaved)
      ensures searchValue == old(searchValue)
    {
      FlipSaved(k);
      if isShowingSaved {
        Paint(SavedView(allImages, savedItems));
      }
    }

    /** The bookmark click itself: the card at `k` and the saved set flip, and the set is stored. */
    method FlipSaved(k: nat)
      requires Valid() && display.Cards? && k < |display.cards|
      modifies this
      ensures Valid()
      ensures var card := old(display.cards[k]);
              && savedItems == Toggle(old(savedItems), card.image.id)
              && display == Cards(old(display.cards)[k := card.(saved := card.image.id !in old(savedItems))])
      ensures storage == WriteIdSet(old(storage), SavedKey, savedItems)
      ensures allImages == old(allImages) && filteredImages == old(filteredImages)
      ensures likedItems == old(likedItems) && isShowingSaved == old(isShowingSaved)
      ensures searchValue == old(searchValue)
      ensures hintShown == old(hintShown) && armedStops == old(armedStops)
    {
      var card := display.cards[k];
      var id := card.image.id;
      var saved' := Toggle(savedItems, id);
      var c := card.(saved := id !in savedItems);
      FlipKeepsAgreement(display.cards, k, c, likedItems, savedItems, likedItems, saved');
      display := Cards(display.cards[k := c]);
      StoreSaved(saved');
    }

    /**
     * A scroll, pointer-down or touch-start on the container: every attached
     * `stopAnimation` listener runs, removes the hint, sets the onboarding
     * flag and detaches itself.
     */
    method StopAnimation()
      requires Valid()
      modifies this
      ensures Valid()
      ensures old(armedStops) > 0 ==>
        !hintShown && armedStops == 0 && storage == old(storage)[FirstImageKey := Text("true")]
      ensures old(armedStops) == 0 ==>
        hintShown == old(hintShown) && armedStops == 0 && storage == old(storage)
      ensures allImages == old(allImages) && filteredImages == old(filteredImages)
      ensures savedItems == old(savedItems) && likedItems == old(likedItems)
      ensures isShowingSaved == old(isShowingSaved) && searchValue == old(searchValue)
      ensures display == old(display)
    {
      if armedStops > 0 {
        hintShown := false;
        KeysDistinct();
        storage := storage[FirstImageKey := Text("true")];
        armedStops := 0;
      }
    }

    /** `runTracker` with the draws `rs` for a new id; the `trackView` request is not modelled. */
    method RunTracker(rs: seq<Uuid.Nibble>)
      requires Valid() && |rs| == 31
      modifies this
      ensures Valid()
      ensures storage == TrackVisitor(old(storage), rs)
      ensures allImages == old(allImages) && filteredImages == old(filteredImages)
      ensures savedItems == old(savedItems) && likedItems == old(likedItems)
      ensures isShowingSaved == old(isShowingSaved) && searchValue == old(searchValue)
      ensures display == old(display) && hintShown == old(hintShown) && armedStops == old(armedStops)
    {
      KeysDistinct();
      storage := TrackVisitor(storage, rs);
    }

    /**
     * The steps of `init` after the fetch: shuffle `images` in place, keep the
     * result as `allImages`, and render it when it is not empty. An empty list
     * leaves the container as it was.
     */
    method Start(images: seq<Image>)
      requires Valid()
      modifies this
      ensures Valid()
      ensures multiset(allImages) == multiset(images)
      ensures exists js :: Shuffle.FullDraws(|images|, js) && allImages == Shuffle.Shuffled(images, js)
      ensures allImages != [] ==>
        filteredImages == allImages
        && display == Render(allImages, likedItems, savedItems)
        && hintShown == HintOnFirst(display, storage)
        && armedStops == old(armedStops) + (if hintShown then 1 else 0)
      ensures allImages == [] ==>
        filteredImages == old(filteredImages) && display == old(display)
        && hintShown == old(hintShown) && armedStops == old(armedStops)
      ensures storage == old(storage)
      ensures savedItems == old(savedItems) && likedItems == old(likedItems)
      ensures isShowingSaved == old(isShowingSaved) && searchValue == old(searchValue)
    {
      var a := new Image[|images|](i requires 0 <= i < |images| => images[i]);
      assert a[..] == images;
      var shuffled;
      ghost var js;
      shuffled, js := Shuffle.ShuffleArray(a);
      allImages := shuffled[..];
      if |allImages| > 0 {
        filteredImages := allImages;
        Paint(filteredImages);
      }
    }

    /**
     * `init`, given the draws `rs` for the visitor id and the outcome of
     * `api.fetchImages` (`None` when it failed, showed its message and gave
     * back `[]`).
     */
    method Init(rs: seq<Uuid.Nibble>, fetched: Option<seq<Image>>)
      requires Valid() && |rs| == 31
      modifies this
      ensures Valid()
      ensures storage == TrackVisitor(old(storage), rs)
      ensures multiset(allImages) == multiset(fetched.GetOr([]))
      ensures exists js :: Shuffle.FullDraws(|fetched.GetOr([])|, js)
                           && allImages == Shuffle.Shuffled(fetched.GetOr([]), js)
      ensures allImages != [] ==>
        filteredImages == allImages
        && display == Render(allImages, likedItems, savedItems)
        && hintShown == HintOnFirst(display, storage)
      ensures allImages == [] ==>
        filteredImages == old(filteredImages)
        && display == (if fetched.None? then LoadFailed else old(display))
        && hintShown == (old(hintShown) && fetched.Some?)
      ensures armedStops == old(armedStops) + (if allImages != [] && hintShown then 1 else 0)
      ensures savedItems == old(savedItems) && likedItems == old(likedItems)
      ensures isShowingSaved == old(isShowingSaved) && searchValue == old(searchValue)
    {
      RunTracker(rs);
      if fetched.None? {
        display, hintShown := LoadFailed, false;
      }
      Start(fetched.GetOr([]));
    }
  }
}
