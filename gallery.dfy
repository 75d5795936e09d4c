/**
 * The gallery page (`promp-ts/script.js`): a master list `allImages` loaded
 * once, a search box that filters it, and a render loop that turns the items
 * that have an image into cards. Every item field may be missing.
 */
module Gallery {
  import opened Wrappers
  import opened Text
  import opened Views

  datatype AfterImage = AfterImage(url: Option<string>)

  /** One element of the fetched array; any field may be absent. */
  datatype Item = Item(title: Option<string>, description: Option<string>, afterImage: Option<AfterImage>)

  /** One `div.card`: the image source, its alt text and the text its copy icon copies. */
  datatype Card = Card(src: string, alt: string, copyText: string)

  /** What `cardsDisplay` shows. */
  datatype Screen =
    | Initial                 // the page's own markup, before the first render
    | NoPrompts               // "No prompts found."
    | LoadFailed              // "Failed to load images. Please try again later."
    | Cards(cards: seq<Card>)

  /** `!(!item.afterImage || !item.afterImage.url)`: an image object with a non-empty url. */
  predicate HasImage(item: Item) {
    item.afterImage.Some? && item.afterImage.value.url.Some? && item.afterImage.value.url.value != ""
  }

  /** `x || fallback` on an optional string: the empty string is falsy too. */
  function OrElse(x: Option<string>, fallback: string): (r: string)
    ensures x.Some? && x.value != "" ==> r == x.value
    ensures x == None || x == Some("") ==> r == fallback
  {
    if x.Some? && x.value != "" then x.value else fallback
  }

  /** The card built for an item that has an image. */
  function CardOf(item: Item): Card
    requires HasImage(item)
  {
    Card(item.afterImage.value.url.value, OrElse(item.title, "image"), OrElse(item.description, ""))
  }

  /** One card per item, in order. */
  function CardsOf(items: seq<Item>): (r: seq<Card>)
    requires forall x :: x in items ==> HasImage(x)
    ensures |r| == |items|
    ensures forall k :: 0 <= k < |items| ==> r[k] == CardOf(items[k])
  {
    seq(|items|, k requires 0 <= k < |items| => CardOf(items[k]))
  }

  /**
   * What `renderImages(images)` leaves on the page: the placeholder for an
   * empty list, otherwise the cards of the items that have an image, in
   * order, with the others skipped.
   */
  function Rendered(images: seq<Item>): (s: Screen)
    ensures s.NoPrompts? <==> images == []
    ensures images != [] ==>
      s.Cards? && exists shown :: IsSelection(images, HasImage, shown) && s.cards == CardsOf(shown)
  {
    if images == [] then NoPrompts
    else
      var shown := Keep(images, HasImage);
      KeepIffSelection(images, HasImage, shown);
      Cards(CardsOf(shown))
  }

  /** One more step of the render loop: the item at `i` adds its card exactly when it has an image. */
  lemma RenderStep(images: seq<Item>, i: nat)
    requires i < |images|
    ensures CardsOf(Keep(images[..i + 1], HasImage))
         == CardsOf(Keep(images[..i], HasImage)) + (if HasImage(images[i]) then [CardOf(images[i])] else [])
  {
    assert images[..i + 1] == images[..i] + [images[i]];
    KeepSnoc(images[..i], images[i], HasImage);
  }

  /** A non-empty list none of whose items has an image renders no card and no placeholder. */
  lemma NoImageNoPlaceholder(images: seq<Item>)
    requires images != []
    requires forall x :: x in images ==> !HasImage(x)
    ensures Rendered(images) == Cards([])
  {
    KeepNone(images, HasImage);
  }

  /** The search term: the input lower-cased, then trimmed. */
  function SearchTerm(input: string): string {
    Trim(Lower(input))
  }

  /** The filter callback: a missing title or description counts as the empty string. */
  predicate ItemMatches(item: Item, term: string) {
    Contains(Lower(item.title.GetOr("")), term) || Contains(Lower(item.description.GetOr("")), term)
  }

  /** `allImages.filter(...)` for the term `term`. */
  function SearchView(all: seq<Item>, term: string): (r: seq<Item>)
    ensures IsSelection(all, item => ItemMatches(item, term), r)
    ensures forall item :: item in r <==> item in all && ItemMatches(item, term)
  {
    var p := (item: Item) => ItemMatches(item, term);
    KeepIffSelection(all, p, Keep(all, p));
    forall item ensures item in Keep(all, p) <==> item in all && p(item) {
      KeepMembers(all, p, item);
    }
    Keep(all, p)
  }

  /** An empty or all-white-space input keeps every item, in order. */
  lemma BlankSearchKeepsAll(all: seq<Item>, input: string)
    requires AllSpace(input)
    ensures SearchView(all, SearchTerm(input)) == all
  {
    LowerAllSpace(input);
    TrimAllSpace(Lower(input));
    assert SearchTerm(input) == [];
    forall item | item in all ensures ItemMatches(item, SearchTerm(input)) {
      ContainsEmpty(Lower(item.title.GetOr("")));
    }
    KeepAll(all, item => ItemMatches(item, SearchTerm(input)));
  }

  /**
   * An item without a title matches only through its description or through
   * the empty term; one with neither field matches only the empty term.
   */
  lemma MissingFieldsMatch(item: Item, term: string)
    requires item.title.None?
    ensures ItemMatches(item, term) <==> term == [] || Contains(Lower(item.description.GetOr("")), term)
    ensures item.description.None? ==> (ItemMatches(item, term) <==> term == [])
  {
    ContainsInEmpty(term);
    assert Lower("") == [];
  }

  /** The page's module-level state. */
  class Page {
    /** The master list. */
    var allImages: seq<Item>
    var screen: Screen

    constructor ()
      ensures allImages == [] && screen == Initial
    {
      allImages, screen := [], Initial;
    }

    /** `renderImages(imagesToRender)`: clear the display, then append a card per item with an image. */
    method Render(images: seq<Item>)
      modifies this
      ensures screen == Rendered(images)
      ensures allImages == old(allImages)
    {
      if |images| == 0 {
        screen := NoPrompts;
        return;
      }
      screen := Cards([]);
      var i := 0;
      while i < |images|
        invariant 0 <= i <= |images|
        invariant screen == Cards(CardsOf(Keep(images[..i], HasImage)))
        invariant allImages == old(allImages)
      {
        RenderStep(images, i);
        if HasImage(images[i]) {
          screen := Cards(screen.cards + [CardOf(images[i])]);
        }
        i := i + 1;
      }
      assert images[..i] == images;
    }

    /** The search input's `input` listener: filter the master list and render the result. */
    method Search(input: string)
      modifies this
      ensures allImages == old(allImages)
      ensures screen == Rendered(SearchView(allImages, SearchTerm(input)))
    {
      var filtered := SearchView(allImages, SearchTerm(input));
      Render(filtered);
    }

    /**
     * `loadImages`, given the outcome of the fetch and the JSON parse: on
     * success the data becomes the master list and is rendered; on failure the
     * message is shown and the master list stays as it was.
     */
    method LoadImages(fetched: Option<seq<Item>>)
      modifies this
      ensures fetched.Some? ==> allImages == fetched.value && screen == Rendered(fetched.value)
      ensures fetched.None? ==> allImages == old(allImages) && screen == LoadFailed
    {
      match fetched {
        case Some(data) =>
          allImages := data;
          Render(allImages);
        case None =>
          screen := LoadFailed;
      }
    }
  }
}
