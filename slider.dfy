/**
 * The state `setupProjectSlider` (js/main.js) keeps for the project carousel,
 * and the event handlers that change it. The browser's smooth `scrollBy` and
 * `scrollTo` are modelled by their final offset; the scroll event they raise is
 * a separate call of `OnScroll`, as in the browser.
 */
module ProjectSlider {
  import opened Wrappers
  import opened CarouselIndex

  /** The interval handles in an optional `autoPlayInterval`. */
  function Handles(h: Option<nat>): (s: set<nat>)
    ensures |s| <= 1
    ensures forall id :: id in s <==> h == Some(id)
  {
    if h.Some? then {h.value} else {}
  }

  class Slider {
    /** `cards[0].offsetWidth + 32`: the width of a card plus the gap. */
    const cardWidth: int
    /** `realCardsCount`: the cards of the strip that are not clones. */
    const realCount: int
    /** `slider.scrollWidth - slider.clientWidth`. */
    const maxScroll: int
    /** `dots[i]` holds when dot `i` carries the `active` class. */
    const dots: array<bool>

    var scrollLeft: int
    var isJumping: bool
    /** The dot the last scroll event marked active. */
    var activeIndex: int
    /** The mouse button is down on the slider (drag in progress). */
    var isDown: bool
    /** The handle `setInterval` returned last, if any. */
    var autoPlayInterval: Option<nat>
    /** The handle the next `setInterval` returns. */
    var nextHandle: nat
    /** The autoplay intervals that are running (set and not cleared). */
    ghost var liveIntervals: set<nat>

    /**
     * Exactly one dot is active, the one at `activeIndex`, and every running
     * interval is the one `autoPlayInterval` holds.
     */
    ghost predicate Valid()
      reads this, dots
    {
      && cardWidth > 0
      && realCount >= 1
      && dots.Length == realCount
      && 0 <= activeIndex < realCount
      && (forall i :: 0 <= i < dots.Length ==> (dots[i] <==> i == activeIndex))
      && liveIntervals <= Handles(autoPlayInterval)
    }

    /** At most one autoplay interval ever runs. */
    lemma AtMostOneInterval()
      requires Valid()
      ensures |liveIntervals| <= 1
      ensures forall id :: id in liveIntervals ==> autoPlayInterval == Some(id)
    {
      var h := Handles(autoPlayInterval);
      SubsetSize(liveIntervals, h);
    }

    /**
     * Set-up on a strip of `cardCount` cards whose first card is `offsetWidth`
     * wide: scroll past the leading clones, create one dot per real card with
     * dot 0 active, and start autoplay. The strip must hold at least one real
     * card besides the six clones.
     */
    constructor(offsetWidth: int, cardCount: int, maxScroll: int)
      requires offsetWidth >= 0 && cardCount - 2 * ClonesCount >= 1
      ensures Valid()
      ensures cardWidth == offsetWidth + 32 && realCount == cardCount - 2 * ClonesCount
      ensures this.maxScroll == maxScroll
      ensures scrollLeft == cardWidth * ClonesCount && !isJumping && !isDown
      ensures activeIndex == 0 && activeIndex == ActiveIndexAt(scrollLeft, cardWidth, realCount)
      ensures autoPlayInterval.Some? && liveIntervals == {autoPlayInterval.value}
      ensures fresh(dots)
    {
      cardWidth := offsetWidth + 32;
      realCount := cardCount - 2 * ClonesCount;
      this.maxScroll := maxScroll;
      scrollLeft := (offsetWidth + 32) * ClonesCount;
      var ds := new bool[cardCount - 2 * ClonesCount];
      var i := 0;
      while i < ds.Length
        invariant 0 <= i <= ds.Length
        invariant forall j :: 0 <= j < i ==> (ds[j] <==> j == 0)
      {
        ds[i] := i == 0;
        i := i + 1;
      }
      dots := ds;
      isJumping := false;
      activeIndex := 0;
      isDown := false;
      autoPlayInterval := None;
      nextHandle := 1;
      liveIntervals := {};
      new;
      DotTargetRoundTrip(0, cardWidth, realCount);
      StartAutoPlay();
    }

    /**
     * The scroll listener. While a jump is pending it does nothing. Otherwise an
     * offset inside the leading clones is moved forward, and one inside the
     * trailing clones backward, by the width of all real cards; the dots are then
     * synchronised with the offset.
     */
    method OnScroll()
      requires Valid()
      modifies this, dots
      ensures Valid()
      ensures old(isJumping) ==> unchanged(this) && unchanged(dots)
      ensures !old(isJumping) && old(scrollLeft) <= cardWidth * (ClonesCount - 2) ==>
        scrollLeft == old(scrollLeft) + cardWidth * realCount && isJumping
      ensures (!old(isJumping) && cardWidth * (ClonesCount - 2) < old(scrollLeft)
               && old(scrollLeft) >= maxScroll - cardWidth * (ClonesCount - 2)) ==>
        scrollLeft == old(scrollLeft) - cardWidth * realCount && isJumping
      ensures (!old(isJumping) && cardWidth * (ClonesCount - 2) < old(scrollLeft)
               && old(scrollLeft) < maxScroll - cardWidth * (ClonesCount - 2)) ==>
        scrollLeft == old(scrollLeft) && !isJumping
      ensures !old(isJumping) ==>
        activeIndex == ActiveIndexAt(scrollLeft, cardWidth, realCount) &&
        activeIndex == ActiveIndexAt(old(scrollLeft), cardWidth, realCount)
      ensures isDown == old(isDown) && autoPlayInterval == old(autoPlayInterval)
      ensures nextHandle == old(nextHandle) && liveIntervals == old(liveIntervals)
    {
      if isJumping {
        return;
      }
      var currentScroll := scrollLeft;
      if currentScroll <= cardWidth * (ClonesCount - 2) {
        isJumping := true;
        scrollLeft := currentScroll + cardWidth * realCount;
        TeleportKeepsActiveIndex(currentScroll, cardWidth, realCount);
      } else if currentScroll >= maxScroll - cardWidth * (ClonesCount - 2) {
        isJumping := true;
        scrollLeft := currentScroll - cardWidth * realCount;
        TeleportKeepsActiveIndex(currentScroll, cardWidth, realCount);
      }
      var realIndex := RoundDiv(scrollLeft, cardWidth) - ClonesCount;
      var index := ActiveIndex(realIndex, realCount);
      var i := 0;
      while i < dots.Length
        invariant 0 <= i <= dots.Length
        invariant forall j :: 0 <= j < i ==> (dots[j] <==> j == index)
        modifies dots
      {
        dots[i] := i == index;
        i := i + 1;
      }
      activeIndex := index;
    }

    /** The 50 ms timeout set by a jump: later scroll events are handled again. */
    method JumpTimeout()
      requires Valid()
      modifies this
      ensures Valid() && !isJumping
      ensures scrollLeft == old(scrollLeft) && activeIndex == old(activeIndex) && isDown == old(isDown)
      ensures autoPlayInterval == old(autoPlayInterval) && liveIntervals == old(liveIntervals)
      ensures nextHandle == old(nextHandle)
    {
      isJumping := false;
    }

    /** `stopAutoPlay`: clear the interval `autoPlayInterval` holds; the handle itself is kept. */
    method StopAutoPlay()
      requires Valid()
      modifies this
      ensures Valid() && liveIntervals == {}
      ensures autoPlayInterval == old(autoPlayInterval) && nextHandle == old(nextHandle)
      ensures scrollLeft == old(scrollLeft) && isJumping == old(isJumping)
      ensures activeIndex == old(activeIndex) && isDown == old(isDown)
    {
      if autoPlayInterval.Some? {
        liveIntervals := liveIntervals - {autoPlayInterval.value};
      }
    }

    /**
     * `startAutoPlay`: stop the running interval, then set a new one, so that
     * exactly one interval runs afterwards whatever was running before.
     */
    method StartAutoPlay()
      requires Valid()
      modifies this
      ensures Valid()
      ensures autoPlayInterval == Some(old(nextHandle)) && liveIntervals == {old(nextHandle)}
      ensures nextHandle == old(nextHandle) + 1
      ensures scrollLeft == old(scrollLeft) && isJumping == old(isJumping)
      ensures activeIndex == old(activeIndex) && isDown == old(isDown)
    {
      StopAutoPlay();
      autoPlayInterval := Some(nextHandle);
      liveIntervals := liveIntervals + {nextHandle};
      nextHandle := nextHandle + 1;
    }

    /** `resetAutoPlay`: restart the autoplay interval. */
    method ResetAutoPlay()
      requires Valid()
      modifies this
      ensures Valid()
      ensures autoPlayInterval == Some(old(nextHandle)) && liveIntervals == {old(nextHandle)}
      ensures nextHandle == old(nextHandle) + 1
      ensures scrollLeft == old(scrollLeft) && isJumping == old(isJumping)
      ensures activeIndex == old(activeIndex) && isDown == old(isDown)
    {
      StopAutoPlay();
      StartAutoPlay();
    }

    /** A tick of the running autoplay interval scrolls one card forward. */
    method AutoPlayTick()
      requires Valid() && liveIntervals != {}
      modifies this
      ensures Valid()
      ensures scrollLeft == old(scrollLeft) + cardWidth
      ensures isJumping == old(isJumping) && activeIndex == old(activeIndex) && isDown == old(isDown)
      ensures autoPlayInterval == old(autoPlayInterval) && liveIntervals == old(liveIntervals)
      ensures nextHandle == old(nextHandle)
    {
      scrollLeft := scrollLeft + cardWidth;
    }

    /** The previous-arrow click: one card back, autoplay restarted. */
    method PrevClick()
      requires Valid()
      modifies this
      ensures Valid()
      ensures scrollLeft == old(scrollLeft) - cardWidth
      ensures autoPlayInterval == Some(old(nextHandle)) && liveIntervals == {old(nextHandle)}
      ensures nextHandle == old(nextHandle) + 1
      ensures isJumping == old(isJumping) && activeIndex == old(activeIndex) && isDown == old(isDown)
    {
      scrollLeft := scrollLeft - cardWidth;
      ResetAutoPlay();
    }

    /** The next-arrow click: one card forward, autoplay restarted. */
    method NextClick()
      requires Valid()
      modifies this
      ensures Valid()
      ensures scrollLeft == old(scrollLeft) + cardWidth
      ensures autoPlayInterval == Some(old(nextHandle)) && liveIntervals == {old(nextHandle)}
      ensures nextHandle == old(nextHandle) + 1
      ensures isJumping == old(isJumping) && activeIndex == old(activeIndex) && isDown == old(isDown)
    {
      scrollLeft := scrollLeft + cardWidth;
      ResetAutoPlay();
    }

    /**
     * A click on dot `i` scrolls to the real card `i`, the offset at which the
     * next scroll event activates dot `i`, and restarts autoplay.
     */
    method DotClick(i: int)
      requires Valid() && 0 <= i < realCount
      modifies this
      ensures Valid()
      ensures scrollLeft == cardWidth * (i + ClonesCount)
      ensures ActiveIndexAt(scrollLeft, cardWidth, realCount) == i
      ensures autoPlayInterval == Some(old(nextHandle)) && liveIntervals == {old(nextHandle)}
      ensures nextHandle == old(nextHandle) + 1
      ensures isJumping == old(isJumping) && activeIndex == old(activeIndex) && isDown == old(isDown)
    {
      scrollLeft := cardWidth * (i + ClonesCount);
      DotTargetRoundTrip(i, cardWidth, realCount);
      ResetAutoPlay();
    }

    /** `mousedown`: a drag starts and autoplay stops. */
    method MouseDown()
      requires Valid()
      modifies this
      ensures Valid() && isDown && liveIntervals == {}
      ensures autoPlayInterval == old(autoPlayInterval) && nextHandle == old(nextHandle)
      ensures scrollLeft == old(scrollLeft) && isJumping == old(isJumping) && activeIndex == old(activeIndex)
    {
      isDown := true;
      StopAutoPlay();
    }

    /** `mouseup` and `mouseleave`: the drag ends and autoplay starts again. */
    method MouseRelease()
      requires Valid()
      modifies this
      ensures Valid() && !isDown
      ensures autoPlayInterval == Some(old(nextHandle)) && liveIntervals == {old(nextHandle)}
      ensures nextHandle == old(nextHandle) + 1
      ensures scrollLeft == old(scrollLeft) && isJumping == old(isJumping) && activeIndex == old(activeIndex)
    {
      isDown := false;
      StartAutoPlay();
    }

    /** `mouseenter`: autoplay stops while the mouse is over the slider. */
    method MouseEnter()
      requires Valid()
      modifies this
      ensures Valid() && liveIntervals == {}
      ensures autoPlayInterval == old(autoPlayInterval) && nextHandle == old(nextHandle)
      ensures scrollLeft == old(scrollLeft) && isJumping == old(isJumping)
      ensures activeIndex == old(activeIndex) && isDown == old(isDown)
    {
      StopAutoPlay();
    }
  }

  /** A subset of a set has no more elements than the set. */
  lemma SubsetSize<T>(a: set<T>, b: set<T>)
    requires a <= b
    ensures |a| <= |b|
  {
    assert b == a + (b - a);
  }
}
