# Product gallery, modelled in Dafny

A model of the `ProductGallery` widget of `assets/product-gallery.js`: a main product
image, a strip of thumbnails, optional previous/next buttons, an optional main-image
button that returns to the featured image, and left/right arrow keys. With the DOM
plumbing removed it is a small state machine over `currentIndex` (`-1` while the
featured image shows, otherwise the selected thumbnail), the collected image entries,
each thumbnail's `active` class, the buttons' `disabled` flags and the featured URL.

Files:

- `wrappers.dfy` — `Option`, standing for JavaScript's `null`/`undefined`/missing attribute.
- `gallery_state.dfy` — module `GalleryState`: the gallery and its part of the page as a
  value (`State`), one function per method of the class (`Init`, `ChangeMainImage`,
  `ReturnToFeaturedImage`, `PreviousImage`, `NextImage`, `UpdateNavigationState`), the
  keydown dispatch (`HandleKey`), the listeners as an `Event` alphabet (`Step`) and event
  sequences (`Run`). The postconditions of the per-method functions state what each
  operation does in every case; `Step` states only what every event keeps.
- `gallery_properties.dfy` — module `GalleryProperties`: properties over arbitrary event
  sequences, proved by induction, and the round trips of previous and next.
- `product_gallery.dfy` — module `Gallery`: the class `ProductGallery` with the fields the
  JavaScript object updates in place (the thumbnails' `active` classes as an `array<bool>`
  cleared by a loop, as the `forEach` does), each method proved to move the object to the
  state the matching `GalleryState` function gives; and `HandleKeydown`, the document's
  keydown listener taking the registered gallery (or `null`) as a parameter.

Quirks of the code kept as written:

- The previous button is disabled only on the featured image (`currentIndex === -1`). At
  index 0 with no featured URL it stays enabled and pressing it does nothing
  (`NoWayBackWithoutFeatured`, `ArrowLeftPresses`).
- With a main image and no thumbnail the next button is disabled at `-1`, since
  `-1 === 0 - 1` (`EmptyListDisablesNext`).
- `previousImage` tests the featured URL for JavaScript truthiness, so an empty
  `data-featured-image` counts as no featured image there, while the main-image button
  still returns to it (`Truthy`, `SelectionIsSticky`).
- `init` never touches the `active` classes: whatever the markup marks stays until the
  first change of selection (`RunSettles`; `ThreeThumbnailsWithoutFeatured` starts with
  the first thumbnail marked while the featured sentinel is current).
- Without a main image `init` returns at once: nothing is collected, the featured URL
  stays unset, the buttons keep their markup `disabled` flags, and the gallery then
  ignores every event (`Init`, `EmptyGalleryIsInert`).

The gallery always starts on the featured sentinel `-1`, never on the first thumbnail
(assets/product-gallery.js:14). `init` returns early only without a main image (:22). A
gallery that has a main image but no thumbnail ignores every event just as one without a
main image does (`EmptyGalleryIsInert`); the one difference is that its `init` still syncs
the buttons, which disables both (`EmptyListDisablesNext`). The previous button is disabled
only at `-1` (:122), even where the arrows cannot go further back than index 0.

The fade transition is modelled by its only lasting effect: each swap appends the source
it will set to `requests`. All swaps wait the same delay, so the last entry is the source
the main image ends up with.

## Model

| member | source | states |
|---|---|---|
| GalleryState.Init | assets/product-gallery.js:7-55 | starts on the featured sentinel with no request; without a main image collects nothing, leaves the featured URL unset and keeps the markup's button flags; with one, collects one entry per thumbnail in order, reads the featured URL when the main-image button exists and syncs the buttons; never touches the `active` classes |
| GalleryState.Images | assets/product-gallery.js:31-37 | one entry per thumbnail, in document order, pairing its `<img>` source with its `data-image-src` |
| GalleryState.UpdateNavigationState | assets/product-gallery.js:120-128 | each existing button is disabled exactly at its end (previous at `-1`, next at `length - 1`), a missing button's flag is untouched, nothing else changes, and it is the identity on a synced state |
| GalleryState.ChangeMainImage | assets/product-gallery.js:57-81 | no change for an index outside the images or equal to the current one; otherwise that index is current, it alone is active, the buttons are synced and its full-size source is requested; keeps the invariant |
| GalleryState.ReturnToFeaturedImage | assets/product-gallery.js:83-101 | no change on the featured image; otherwise current becomes `-1`, no thumbnail is active, the buttons are synced and the featured URL is requested |
| GalleryState.PreviousImage | assets/product-gallery.js:103-109 | above index 0 moves one back; at 0 goes to the featured image only with a non-empty featured URL and otherwise changes nothing; at `-1` changes nothing |
| GalleryState.NextImage | assets/product-gallery.js:111-117 | from `-1` to 0 when there are images, from `i` to `i + 1` below the last index, no change at the last index or with no image |
| GalleryState.HandleKey | assets/product-gallery.js:152-161 | ArrowLeft is exactly previous, ArrowRight exactly next, any other key changes nothing |
| GalleryState.Step | assets/product-gallery.js:39-51 | every listener keeps the invariant and the collected gallery, and leaves the state unchanged or with buttons and `active` classes matching the index |
| GalleryProperties.RunPreserves | assets/product-gallery.js:57-128 | after any event sequence the index is still `-1` or a valid index, the images, featured URL and buttons are those of `init`, and synced buttons and `active` classes stay synced |
| GalleryProperties.RunSettles | assets/product-gallery.js:70-77 | after any event sequence the state is unchanged or its buttons and `active` classes match the index, whatever the markup started with |
| GalleryProperties.EmptyGalleryIsInert | assets/product-gallery.js:22 | a gallery with no collected image ignores every event sequence |
| GalleryProperties.SelectionIsSticky | assets/product-gallery.js:103-109 | without the main-image button and a featured URL, no event sequence leads back to the featured image once a thumbnail is selected |
| GalleryProperties.ArrowRightPresses | assets/product-gallery.js:111-117 | `k` right arrows move `k` places on, clamped at the last index |
| GalleryProperties.ArrowLeftPresses | assets/product-gallery.js:103-109 | `k` left arrows move `k` places back, clamped at `-1` with a featured URL and at 0 without one; nothing from `-1` |
| GalleryProperties.NextThenPrevious | assets/product-gallery.js:103-117 | where next moves and previous can come back, next then previous restores the whole state except two more requests |
| GalleryProperties.PreviousThenNext | assets/product-gallery.js:103-117 | wherever previous moves, previous then next restores the whole state except two more requests |
| GalleryProperties.NoWayBackWithoutFeatured | assets/product-gallery.js:104-107 | without a featured URL, next from `-1` then previous stays at 0, with the previous button enabled there |
| GalleryProperties.ChangeMainImageIdempotent | assets/product-gallery.js:58 | selecting the same index twice is selecting it once |
| GalleryProperties.EmptyListDisablesNext | assets/product-gallery.js:125-127 | with a main image and no thumbnail, `init` disables both existing buttons |
| GalleryProperties.ThreeThumbnailsWithoutFeatured | assets/product-gallery.js:14-128 | three thumbnails, no featured URL: starts at `-1` with previous disabled and the markup's mark kept, three nexts reach 2 and disable next, a fourth changes nothing, previous stops at 0 |
| GalleryProperties.FeaturedRoundTrip | assets/product-gallery.js:83-117 | with a featured URL, next shows thumbnail 0 alone active and previous returns to `-1` with no thumbnail active, requesting the featured URL |
| Gallery.ProductGallery.constructor | assets/product-gallery.js:7-55 | the new object's state is `GalleryState.Init` of the page's elements and satisfies the invariant |
| Gallery.ProductGallery.UpdateNavigationState | assets/product-gallery.js:120-128 | the new state is `GalleryState.UpdateNavigationState` of the old one; only the two flags may change |
| Gallery.ProductGallery.ClearActive | assets/product-gallery.js:71 | every thumbnail loses its `active` class |
| Gallery.ProductGallery.ChangeMainImage | assets/product-gallery.js:57-81 | the new state is `GalleryState.ChangeMainImage` of the old one, and the object invariant holds before and after |
| Gallery.ProductGallery.ReturnToFeaturedImage | assets/product-gallery.js:83-101 | the new state is `GalleryState.ReturnToFeaturedImage` of the old one, and the object invariant holds before and after |
| Gallery.ProductGallery.PreviousImage | assets/product-gallery.js:103-109 | the new state is `GalleryState.PreviousImage` of the old one, and the object invariant holds before and after |
| Gallery.ProductGallery.NextImage | assets/product-gallery.js:111-117 | the new state is `GalleryState.NextImage` of the old one, and the object invariant holds before and after |
| Gallery.HandleKeydown | assets/product-gallery.js:148-162 | with no registered gallery nothing happens and the default is kept; otherwise the gallery moves as `GalleryState.HandleKey` says and the default is prevented exactly for the two arrow keys; a registered gallery keeps its invariant |

## Left out

- DOM queries (`querySelector`, `querySelectorAll`, `dataset`): `init` takes whether a main image exists, the main-image button and its `data-featured-image`, the thumbnails (their `<img>` source, `data-image-src` and markup `active` class) and the buttons with their markup `disabled` flag as parameters.
- A thumbnail element without an `<img>` child makes `init` throw; the model assumes every thumbnail has one.
- Listener registration: modelled by the `Event` alphabet of `GalleryState.Step`; registration is skipped without a main image, which makes no difference because such a gallery collects no image and is inert.
- The fade: the opacity changes and the timer are not modelled; each deferred swap of the main image's source is recorded in `requests` in the order it was scheduled.
- `scrollThumbnailIntoView`: a browser side effect with no state.
- The `window.productGallery` global and the two `DOMContentLoaded` listeners, which build two galleries whose click listeners both fire on the same page: page lifecycle; the key handler takes the gallery as a parameter and one gallery is modelled.
- URLs are opaque strings; nothing parses them.
