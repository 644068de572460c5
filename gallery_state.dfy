/**
 * The product gallery of assets/product-gallery.js as a state machine on values.
 *
 * One function per method of the JavaScript class `ProductGallery`. Each takes the
 * gallery's state before the call and gives the state after it; the DOM it touches
 * (the thumbnails' `active` class, the `disabled` flags of the previous and next
 * buttons, the main image's source) is part of the state.
 */
module GalleryState {
  import opened Wrappers

  /** One entry of `productImages`: the thumbnail's `<img>` source and the
      `data-image-src` of the thumbnail element (`None` when the attribute is absent). */
  datatype Image = Image(thumbnail: string, full: Option<string>)

  /** A thumbnail element as the page supplies it: the source of its `<img>`, its
      `data-image-src` attribute and whether the markup already gives it the `active` class. */
  datatype Thumbnail = Thumbnail(imgSrc: string, imageSrc: Option<string>, active: bool)

  /**
   * The gallery and the part of the page it drives.
   *  - currentIndex: -1 while the featured image shows, otherwise the selected thumbnail;
   *  - images: `productImages`, one entry per thumbnail once `init` has run;
   *  - active: the `active` class of each thumbnail element, in document order;
   *  - hasMainButton: whether the page has the main-image button (which returns to the
   *    featured image) and featured: its `data-featured-image`;
   *  - hasPrev/prevDisabled, hasNext/nextDisabled: whether each navigation button exists
   *    and its `disabled` property;
   *  - requests: every source the deferred swap of the main image was asked to show, oldest
   *    first; since every swap waits the same delay, the last one is what stays on screen.
   */
  datatype State = State(
    currentIndex: int,
    images: seq<Image>,
    active: seq<bool>,
    hasMainButton: bool,
    featured: Option<string>,
    hasPrev: bool,
    prevDisabled: bool,
    hasNext: bool,
    nextDisabled: bool,
    requests: seq<Option<string>>)

  /** What a user or the page can do to the gallery once it is built. */
  datatype Event =
    | ThumbnailClick(index: int)
    | MainButtonClick
    | PrevClick
    | NextClick
    | Key(key: string)

  /** The object invariant: the index is the featured sentinel or selects an image, and
      once images are collected there is one per thumbnail element. */
  predicate Valid(s: State)
  {
    (s.currentIndex == -1 || 0 <= s.currentIndex < |s.images|) &&
    (s.images == [] || |s.images| == |s.active|)
  }

  /** JavaScript truthiness of an optional URL: absent and empty are both false. */
  predicate Truthy(url: Option<string>)
  {
    url.Some? && url.value != ""
  }

  /** The buttons that exist show the state: previous is disabled exactly on the featured
      image, next exactly at the last index. */
  predicate NavSynced(s: State)
  {
    (s.hasPrev ==> s.prevDisabled == (s.currentIndex == -1)) &&
    (s.hasNext ==> s.nextDisabled == (s.currentIndex == |s.images| - 1))
  }

  /** The thumbnail at currentIndex, and no other, carries the `active` class (none at all
      while the featured image shows). */
  predicate Marked(s: State)
  {
    forall j :: 0 <= j < |s.active| ==> s.active[j] == (j == s.currentIndex)
  }

  /** What no operation after `init` changes. */
  predicate SameGallery(s: State, t: State)
  {
    t.images == s.images && |t.active| == |s.active| &&
    t.hasMainButton == s.hasMainButton && t.featured == s.featured &&
    t.hasPrev == s.hasPrev && t.hasNext == s.hasNext
  }

  /** The entries `init` collects from the thumbnail elements, in document order. */
  function Images(thumbnails: seq<Thumbnail>): (r: seq<Image>)
    ensures |r| == |thumbnails|
    ensures forall j :: 0 <= j < |r| ==>
      r[j].thumbnail == thumbnails[j].imgSrc && r[j].full == thumbnails[j].imageSrc
  {
    seq(|thumbnails|, j requires 0 <= j < |thumbnails| =>
      Image(thumbnails[j].imgSrc, thumbnails[j].imageSrc))
  }

  /** The `active` classes the markup gives the thumbnail elements. */
  function Marks(thumbnails: seq<Thumbnail>): (r: seq<bool>)
    ensures |r| == |thumbnails|
    ensures forall j :: 0 <= j < |r| ==> r[j] == thumbnails[j].active
  {
    seq(|thumbnails|, j requires 0 <= j < |thumbnails| => thumbnails[j].active)
  }

  /** `updateNavigationState`: each button that exists gets the disabled flag its
      position calls for; nothing else changes. */
  function UpdateNavigationState(s: State): (r: State)
    ensures NavSynced(r)
    ensures SameGallery(s, r)
    ensures r.currentIndex == s.currentIndex && r.active == s.active && r.requests == s.requests
    ensures !s.hasPrev ==> r.prevDisabled == s.prevDisabled
    ensures !s.hasNext ==> r.nextDisabled == s.nextDisabled
    ensures NavSynced(s) ==> r == s
  {
    s.(prevDisabled := if s.hasPrev then s.currentIndex == -1 else s.prevDisabled,
       nextDisabled := if s.hasNext then s.currentIndex == |s.images| - 1 else s.nextDisabled)
  }

  /**
   * The constructor with `init`. Without a main image `init` returns at once: no image
   * is collected, no featured URL is read and the buttons keep the disabled flags of the
   * markup. The `active` classes are never touched by `init`.
   */
  function Init(hasMainImage: bool, mainButton: Option<Option<string>>, thumbnails: seq<Thumbnail>,
                prevButton: Option<bool>, nextButton: Option<bool>): (r: State)
    ensures Valid(r) && r.currentIndex == -1 && r.requests == []
    ensures r.active == Marks(thumbnails)
    ensures r.hasMainButton == mainButton.Some?
    ensures r.hasPrev == prevButton.Some? && r.hasNext == nextButton.Some?
    ensures hasMainImage ==> NavSynced(r) && r.images == Images(thumbnails)
    ensures hasMainImage ==> r.featured == if mainButton.Some? then mainButton.value else None
    ensures !hasMainImage ==> r.images == [] && r.featured == None
    ensures !hasMainImage && prevButton.Some? ==> r.prevDisabled == prevButton.value
    ensures !hasMainImage && nextButton.Some? ==> r.nextDisabled == nextButton.value
  {
    var built := State(-1, [], Marks(thumbnails), mainButton.Some?, None,
                       prevButton.Some?, prevButton.Some? && prevButton.value,
                       nextButton.Some?, nextButton.Some? && nextButton.value, []);
    if !hasMainImage then built
    else
      UpdateNavigationState(built.(
        featured := if mainButton.Some? then mainButton.value else None,
        images := Images(thumbnails)))
  }

  /**
   * `changeMainImage(index)`: ignored when no image has that index or it is already
   * selected; otherwise selects it, asks for its full-size source, marks that thumbnail
   * alone as active and updates the buttons.
   */
  function ChangeMainImage(s: State, index: int): (r: State)
    ensures Valid(s) ==> Valid(r)
    ensures SameGallery(s, r)
    ensures !(0 <= index < |s.images|) || index == s.currentIndex ==> r == s
    ensures 0 <= index < |s.images| && index != s.currentIndex ==>
      r.currentIndex == index && Marked(r) && NavSynced(r) &&
      r.requests == s.requests + [s.images[index].full]
    ensures r == s || (Marked(r) && NavSynced(r))
  {
    if !(0 <= index < |s.images|) || index == s.currentIndex then s
    else
      UpdateNavigationState(s.(
        currentIndex := index,
        requests := s.requests + [s.images[index].full],
        active := seq(|s.active|, j => j == index)))
  }

  /**
   * `returnToFeaturedImage`: ignored on the featured image; otherwise goes back to it,
   * asks for the featured URL (whatever it is, absent included), clears every `active`
   * class and updates the buttons.
   */
  function ReturnToFeaturedImage(s: State): (r: State)
    ensures Valid(s) ==> Valid(r)
    ensures SameGallery(s, r)
    ensures s.currentIndex == -1 ==> r == s
    ensures s.currentIndex != -1 ==>
      r.currentIndex == -1 && (forall j :: 0 <= j < |r.active| ==> !r.active[j]) &&
      NavSynced(r) && r.requests == s.requests + [s.featured]
    ensures r == s || (Marked(r) && NavSynced(r))
  {
    if s.currentIndex == -1 then s
    else
      UpdateNavigationState(s.(
        currentIndex := -1,
        requests := s.requests + [s.featured],
        active := seq(|s.active|, j => false)))
  }

  /**
   * `previousImage`: one thumbnail back; from the first thumbnail back to the featured
   * image only when a featured URL is set (a non-empty string); nothing from the featured
   * image.
   */
  function PreviousImage(s: State): (r: State)
    ensures Valid(s) ==> Valid(r)
    ensures SameGallery(s, r)
    ensures Valid(s) && s.currentIndex > 0 ==>
      r.currentIndex == s.currentIndex - 1 && Marked(r) && NavSynced(r) &&
      r.requests == s.requests + [s.images[s.currentIndex - 1].full]
    ensures s.currentIndex == 0 && Truthy(s.featured) ==>
      r.currentIndex == -1 && Marked(r) && NavSynced(r) && r.requests == s.requests + [s.featured]
    ensures s.currentIndex == 0 && !Truthy(s.featured) ==> r == s
    ensures s.currentIndex < 0 ==> r == s
    ensures r == s || (Marked(r) && NavSynced(r))
  {
    if s.currentIndex > 0 then ChangeMainImage(s, s.currentIndex - 1)
    else if s.currentIndex == 0 && Truthy(s.featured) then ReturnToFeaturedImage(s)
    else s
  }

  /**
   * `nextImage`: from the featured image to the first thumbnail when there is one, else
   * one thumbnail on; nothing at the last thumbnail.
   */
  function NextImage(s: State): (r: State)
    ensures Valid(s) ==> Valid(r)
    ensures SameGallery(s, r)
    ensures s.currentIndex == -1 && |s.images| > 0 ==>
      r.currentIndex == 0 && Marked(r) && NavSynced(r) &&
      r.requests == s.requests + [s.images[0].full]
    ensures 0 <= s.currentIndex < |s.images| - 1 ==>
      r.currentIndex == s.currentIndex + 1 && Marked(r) && NavSynced(r) &&
      r.requests == s.requests + [s.images[s.currentIndex + 1].full]
    ensures s.currentIndex >= |s.images| - 1 ==> r == s
    ensures r == s || (Marked(r) && NavSynced(r))
  {
    if s.currentIndex == -1 && |s.images| > 0 then ChangeMainImage(s, 0)
    else if s.currentIndex < |s.images| - 1 then ChangeMainImage(s, s.currentIndex + 1)
    else s
  }

  /** Whether the keydown handler calls `preventDefault` for a key (given a gallery). */
  predicate PreventsDefault(key: string)
  {
    key == "ArrowLeft" || key == "ArrowRight"
  }

  /** The keydown handler once a gallery is registered: the left arrow is the previous
      button, the right arrow the next button, every other key is ignored. */
  function HandleKey(s: State, key: string): (r: State)
    ensures key == "ArrowLeft" ==> r == PreviousImage(s)
    ensures key == "ArrowRight" ==> r == NextImage(s)
    ensures !PreventsDefault(key) ==> r == s
  {
    if key == "ArrowLeft" then PreviousImage(s)
    else if key == "ArrowRight" then NextImage(s)
    else s
  }

  /** One event. A button's click listener exists only when the button does. */
  function Step(s: State, e: Event): (r: State)
    ensures Valid(s) ==> Valid(r)
    ensures SameGallery(s, r)
    ensures r == s || (Marked(r) && NavSynced(r))
  {
    match e
    case ThumbnailClick(i) => ChangeMainImage(s, i)
    case MainButtonClick => if s.hasMainButton then ReturnToFeaturedImage(s) else s
    case PrevClick => if s.hasPrev then PreviousImage(s) else s
    case NextClick => if s.hasNext then NextImage(s) else s
    case Key(k) => HandleKey(s, k)
  }

  /** A sequence of events, first to last. */
  function Run(s: State, events: seq<Event>): State
    decreases |events|
  {
    if events == [] then s else Run(Step(s, events[0]), events[1..])
  }

  /** `k` presses of one key. */
  function Presses(key: string, k: nat): (r: seq<Event>)
    ensures |r| == k && forall j :: 0 <= j < k ==> r[j] == Key(key)
  {
    seq(k, _ => Key(key))
  }
}
