/**
 * Properties of the product gallery over whole sequences of events: the object invariant
 * and the agreement of the page with the state persist, arrow keys walk the list with the
 * clamping the code gives them, and previous and next undo each other where they can.
 */
module GalleryProperties {
  import opened Wrappers
  import opened GalleryState

  function Min(a: int, b: int): int { if a <= b then a else b }
  function Max(a: int, b: int): int { if a >= b then a else b }

  /** Every event keeps the invariant and the collected images, and keeps the buttons and
      the `active` classes in agreement with the index once they are. */
  lemma {:induction false} RunPreserves(s: State, events: seq<Event>)
    requires Valid(s)
    ensures Valid(Run(s, events)) && SameGallery(s, Run(s, events))
    ensures NavSynced(s) ==> NavSynced(Run(s, events))
    ensures Marked(s) ==> Marked(Run(s, events))
    decreases |events|
  {
    if events != [] {
      RunPreserves(Step(s, events[0]), events[1..]);
    }
  }

  /** Whatever the markup started with, as soon as any event has changed the gallery the
      buttons and the `active` classes show the current index. */
  lemma {:induction false} RunSettles(s: State, events: seq<Event>)
    ensures Run(s, events) == s || (Marked(Run(s, events)) && NavSynced(Run(s, events)))
    decreases |events|
  {
    if events != [] {
      RunSettles(Step(s, events[0]), events[1..]);
    }
  }

  /** A gallery with no image (no thumbnails, or no main image so `init` stopped early)
      ignores every event. */
  lemma {:induction false} EmptyGalleryIsInert(s: State, events: seq<Event>)
    requires Valid(s) && s.images == []
    ensures Run(s, events) == s
    decreases |events|
  {
    if events != [] {
      EmptyGalleryIsInert(Step(s, events[0]), events[1..]);
    }
  }

  /** Without the main-image button and without a featured URL, once a thumbnail is
      selected the featured image never comes back. */
  lemma {:induction false} SelectionIsSticky(s: State, events: seq<Event>)
    requires Valid(s) && 0 <= s.currentIndex
    requires !s.hasMainButton && !Truthy(s.featured)
    ensures 0 <= Run(s, events).currentIndex
    decreases |events|
  {
    if events != [] {
      SelectionIsSticky(Step(s, events[0]), events[1..]);
    }
  }

  /** `k` presses of the right arrow move `k` places on, stopping at the last thumbnail. */
  lemma {:induction false} ArrowRightPresses(s: State, k: nat)
    requires Valid(s)
    ensures Run(s, Presses("ArrowRight", k)).currentIndex ==
      if s.images == [] then -1 else Min(s.currentIndex + k, |s.images| - 1)
    decreases k
  {
    if k > 0 {
      var events := Presses("ArrowRight", k);
      assert events[0] == Key("ArrowRight");
      assert events[1..] == Presses("ArrowRight", k - 1);
      ArrowRightPresses(NextImage(s), k - 1);
    }
  }

  /** `k` presses of the left arrow move `k` places back, stopping at the featured image
      when a featured URL is set and at the first thumbnail when none is. */
  lemma {:induction false} ArrowLeftPresses(s: State, k: nat)
    requires Valid(s)
    ensures Run(s, Presses("ArrowLeft", k)).currentIndex ==
      if s.currentIndex == -1 then -1
      else if Truthy(s.featured) then Max(s.currentIndex - k, -1)
      else Max(s.currentIndex - k, 0)
    decreases k
  {
    if k > 0 {
      var events := Presses("ArrowLeft", k);
      assert events[0] == Key("ArrowLeft");
      assert events[1..] == Presses("ArrowLeft", k - 1);
      ArrowLeftPresses(PreviousImage(s), k - 1);
    }
  }

  /** Next then previous restores the page where next could move and previous can come
      back; only the requested sources grow. */
  lemma NextThenPrevious(s: State)
    requires Valid(s) && Marked(s) && NavSynced(s)
    requires s.currentIndex < |s.images| - 1
    requires 0 <= s.currentIndex || Truthy(s.featured)
    ensures PreviousImage(NextImage(s)) == s.(requests := PreviousImage(NextImage(s)).requests)
    ensures |PreviousImage(NextImage(s)).requests| == |s.requests| + 2
  {
  }

  /** Previous then next restores the page wherever previous moves. */
  lemma PreviousThenNext(s: State)
    requires Valid(s) && Marked(s) && NavSynced(s)
    requires 0 < s.currentIndex || (s.currentIndex == 0 && Truthy(s.featured))
    ensures NextImage(PreviousImage(s)) == s.(requests := NextImage(PreviousImage(s)).requests)
    ensures |NextImage(PreviousImage(s)).requests| == |s.requests| + 2
  {
  }

  /** Without a featured URL the first thumbnail is as far back as the arrows go: next
      from the featured image then previous stays on the first thumbnail, although the
      previous button there is enabled. */
  lemma NoWayBackWithoutFeatured(s: State)
    requires Valid(s) && s.currentIndex == -1 && s.images != [] && !Truthy(s.featured)
    ensures PreviousImage(NextImage(s)).currentIndex == 0
    ensures NextImage(s).hasPrev ==> !NextImage(s).prevDisabled
  {
  }

  /** Selecting the same thumbnail twice is selecting it once. */
  lemma ChangeMainImageIdempotent(s: State, index: int)
    ensures ChangeMainImage(ChangeMainImage(s, index), index) == ChangeMainImage(s, index)
  {
  }

  /** With a main image but no thumbnail, `init` disables both existing buttons:
      -1 is the featured sentinel and also `0 - 1`. */
  lemma EmptyListDisablesNext(hasMainButton: Option<Option<string>>, prev: Option<bool>, next: Option<bool>)
    ensures var s := Init(true, hasMainButton, [], prev, next);
      (s.hasPrev ==> s.prevDisabled) && (s.hasNext ==> s.nextDisabled)
  {
  }

  /** Three thumbnails, no featured URL, the first marked active by the markup: the
      gallery starts on the featured sentinel with the previous button disabled, walks
      to the last thumbnail and stops there, and walks back no further than the first. */
  lemma ThreeThumbnailsWithoutFeatured()
    ensures var thumbnails := [Thumbnail("t0", Some("f0"), true), Thumbnail("t1", Some("f1"), false),
                               Thumbnail("t2", None, false)];
      var s0 := Init(true, None, thumbnails, Some(false), Some(false));
      var s3 := NextImage(NextImage(NextImage(s0)));
      var back := PreviousImage(PreviousImage(s3));
      s0.currentIndex == -1 && s0.prevDisabled && !s0.nextDisabled && s0.active[0] &&
      s3.currentIndex == 2 && s3.nextDisabled && !s3.prevDisabled &&
      s3.requests == [Some("f0"), Some("f1"), None] &&
      NextImage(s3) == s3 &&
      back.currentIndex == 0 && !back.prevDisabled && PreviousImage(back) == back
  {
  }

  /** A featured URL and two thumbnails: next shows the first thumbnail, previous goes
      back to the featured image and clears every `active` class. */
  lemma FeaturedRoundTrip()
    ensures var thumbnails := [Thumbnail("t0", Some("f0"), false), Thumbnail("t1", Some("f1"), false)];
      var s0 := Init(true, Some(Some("hero")), thumbnails, Some(false), Some(false));
      var s1 := NextImage(s0);
      var s2 := PreviousImage(s1);
      s1.currentIndex == 0 && s1.active == [true, false] &&
      s2.currentIndex == -1 && s2.active == [false, false] && s2.prevDisabled &&
      s2.requests == [Some("f0"), Some("hero")]
  {
  }
}
