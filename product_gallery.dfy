/**
 * The `ProductGallery` class of assets/product-gallery.js with its fields updated in
 * place, and the document's keydown handler. Each method is proved to take the gallery
 * from its state to the state the matching function of GalleryState gives.
 */
module Gallery {
  import opened Wrappers
  import GalleryState

  class ProductGallery {
    var currentIndex: int
    var images: seq<GalleryState.Image>
    /** The `active` class of each thumbnail element; the elements are fixed, their classes are not. */
    const active: array<bool>
    const hasMainButton: bool
    var featured: Option<string>
    const hasPrev: bool
    var prevDisabled: bool
    const hasNext: bool
    var nextDisabled: bool
    /** Sources handed to the deferred swap of the main image, oldest first. */
    var requests: seq<Option<string>>

    /** The gallery and its part of the page as a value. */
    ghost function View(): GalleryState.State
      reads this, active
    {
      GalleryState.State(currentIndex, images, active[..], hasMainButton, featured,
                         hasPrev, prevDisabled, hasNext, nextDisabled, requests)
    }

    ghost predicate Valid()
      reads this, active
    {
      GalleryState.Valid(View())
    }

    /** The constructor and `init`: the page's elements arrive as parameters. */
    constructor (hasMainImage: bool, mainButton: Option<Option<string>>,
                 thumbnails: seq<GalleryState.Thumbnail>,
                 prevButton: Option<bool>, nextButton: Option<bool>)
      ensures fresh(active) && Valid()
      ensures View() == GalleryState.Init(hasMainImage, mainButton, thumbnails, prevButton, nextButton)
    {
      currentIndex := -1;
      images := [];
      featured := None;
      requests := [];
      active := new bool[|thumbnails|](j requires 0 <= j < |thumbnails| => thumbnails[j].active);
      hasMainButton := mainButton.Some?;
      hasPrev := prevButton.Some?;
      prevDisabled := prevButton.Some? && prevButton.value;
      hasNext := nextButton.Some?;
      nextDisabled := nextButton.Some? && nextButton.value;
      new;
      assert active[..] == GalleryState.Marks(thumbnails);
      if hasMainImage {
        if mainButton.Some? {
          featured := mainButton.value;
        }
        var k := 0;
        while k < |thumbnails|
          invariant 0 <= k <= |thumbnails|
          invariant images == GalleryState.Images(thumbnails[..k])
          modifies this`images
        {
          images := images + [GalleryState.Image(thumbnails[k].imgSrc, thumbnails[k].imageSrc)];
          k := k + 1;
        }
        assert thumbnails[..k] == thumbnails;
        UpdateNavigationState();
      }
    }

    /** `updateNavigationState`. */
    method UpdateNavigationState()
      modifies this`prevDisabled, this`nextDisabled
      ensures View() == GalleryState.UpdateNavigationState(old(View()))
    {
      if hasPrev {
        prevDisabled := currentIndex == -1;
      }
      if hasNext {
        nextDisabled := currentIndex == |images| - 1;
      }
    }

    /** Removes the `active` class from every thumbnail, one element at a time. */
    method ClearActive()
      modifies active
      ensures active[..] == seq(active.Length, j => false)
    {
      var k := 0;
      while k < active.Length
        invariant 0 <= k <= active.Length
        invariant forall j :: 0 <= j < k ==> !active[j]
      {
        active[k] := false;
        k := k + 1;
      }
    }

    /** `changeMainImage(index)`. */
    method ChangeMainImage(index: int)
      requires Valid()
      modifies this, active
      ensures Valid()
      ensures View() == GalleryState.ChangeMainImage(old(View()), index)
    {
      if !(0 <= index < |images|) || index == currentIndex {
        return;
      }
      currentIndex := index;
      requests := requests + [images[index].full];
      ClearActive();
      if index < active.Length {
        active[index] := true;
      }
      UpdateNavigationState();
      assert active[..] == seq(active.Length, j => j == index);
    }

    /** `returnToFeaturedImage`. */
    method ReturnToFeaturedImage()
      requires Valid()
      modifies this, active
      ensures Valid()
      ensures View() == GalleryState.ReturnToFeaturedImage(old(View()))
    {
      if currentIndex == -1 {
        return;
      }
      currentIndex := -1;
      requests := requests + [featured];
      ClearActive();
      UpdateNavigationState();
    }

    /** `previousImage`. */
    method PreviousImage()
      requires Valid()
      modifies this, active
      ensures Valid()
      ensures View() == GalleryState.PreviousImage(old(View()))
    {
      if currentIndex > 0 {
        ChangeMainImage(currentIndex - 1);
      } else if currentIndex == 0 && featured.Some? && featured.value != "" {
        ReturnToFeaturedImage();
      }
    }

    /** `nextImage`. */
    method NextImage()
      requires Valid()
      modifies this, active
      ensures Valid()
      ensures View() == GalleryState.NextImage(old(View()))
    {
      if currentIndex == -1 && |images| > 0 {
        ChangeMainImage(0);
      } else if currentIndex < |images| - 1 {
        ChangeMainImage(currentIndex + 1);
      }
    }
  }

  /**
   * The document's keydown listener. `gallery` is the registered instance, `null` before
   * the page has one. Returns whether the browser's default action was prevented.
   */
  method HandleKeydown(gallery: ProductGallery?, key: string) returns (defaultPrevented: bool)
    requires gallery != null ==> gallery.Valid()
    modifies if gallery == null then {} else {gallery, gallery.active}
    ensures gallery != null ==> gallery.Valid()
    ensures defaultPrevented == (gallery != null && GalleryState.PreventsDefault(key))
    ensures gallery != null ==> gallery.View() == GalleryState.HandleKey(old(gallery.View()), key)
  {
    defaultPrevented := false;
    if gallery == null {
      return;
    }
    if key == "ArrowLeft" {
      defaultPrevented := true;
      gallery.PreviousImage();
    } else if key == "ArrowRight" {
      defaultPrevented := true;
      gallery.NextImage();
    }
  }
}
