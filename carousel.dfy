/** The home page carousel, `frontend/src/components/Carousel.js`: an index
    into four slides that the arrows move with `%`, the dots set, and a
    timer advances. */
module Carousel {

  /** `images.length`. */
  const SlideCount: nat := 4

  /** JavaScript's `a % n`: the sign follows the dividend. */
  function JsRemainder(a: int, n: nat): (r: int)
    requires n > 0
    ensures a >= 0 ==> 0 <= r < n && r == a % n
  {
    if a >= 0 then a % n else -((-a) % n)
  }

  /** The updaters of `goToNext` and `goToPrevious`. */
  function NextSlide(i: int): int {
    JsRemainder(i + 1, SlideCount)
  }

  function PreviousSlide(i: int): int {
    JsRemainder(i - 1 + SlideCount, SlideCount)
  }

  /** The updater the `setInterval` callback passes to `setCurrentIndex`. */
  function AutoAdvance(prevIndex: int): int {
    JsRemainder(prevIndex + 1, SlideCount)
  }

  /** From any slide the arrows reach a slide: the next one, with the last
      wrapping to the first, and the previous one, with the first wrapping
      to the last. */
  lemma ArrowsStayOnSlides(i: int)
    requires 0 <= i < SlideCount
    ensures 0 <= NextSlide(i) < SlideCount && NextSlide(i) == (i + 1) % 4
    ensures 0 <= PreviousSlide(i) < SlideCount && PreviousSlide(i) == (i + 3) % 4
    ensures NextSlide(3) == 0 && PreviousSlide(0) == 3
  {
  }

  /** One arrow undoes the other. */
  lemma ArrowsAreInverse(i: int)
    requires 0 <= i < SlideCount
    ensures PreviousSlide(NextSlide(i)) == i
    ensures NextSlide(PreviousSlide(i)) == i
  {
  }

  /** The timer takes the same step as the right arrow, from any index. */
  lemma AutoAdvanceIsNext(i: int)
    ensures AutoAdvance(i) == NextSlide(i)
  {
  }

  /** Four steps forward come back to the slide they started on. */
  lemma FourStepsReturn(i: int)
    requires 0 <= i < SlideCount
    ensures NextSlide(NextSlide(NextSlide(NextSlide(i)))) == i
  {
  }

  /** The `currentIndex` state. */
  class CarouselState {
    var currentIndex: int

    predicate Valid()
      reads this
    {
      0 <= currentIndex < SlideCount
    }

    constructor ()
      ensures currentIndex == 0 && Valid()
    {
      currentIndex := 0;
    }

    /** `goToSlide(index)`, called by the dots. */
    method GoToSlide(index: int)
      modifies this
      ensures currentIndex == index
    {
      currentIndex := index;
    }

    method GoToPrevious()
      modifies this
      ensures currentIndex == PreviousSlide(old(currentIndex))
      ensures old(Valid()) ==> Valid()
    {
      currentIndex := JsRemainder(currentIndex - 1 + SlideCount, SlideCount);
    }

    method GoToNext()
      modifies this
      ensures currentIndex == NextSlide(old(currentIndex))
      ensures old(Valid()) ==> Valid()
    {
      currentIndex := JsRemainder(currentIndex + 1, SlideCount);
    }

    /** One firing of the five-second interval. */
    method Tick()
      modifies this
      ensures currentIndex == NextSlide(old(currentIndex))
      ensures old(Valid()) ==> Valid()
    {
      currentIndex := JsRemainder(currentIndex + 1, SlideCount);
    }
  }
}
