/** The product image gallery, `frontend/src/components/ProductImageGallery.js`:
    the `images` prop made into a list, and an index into that list that
    the arrows move cyclically and the thumbnails set. */
module ImageGallery {

  /** The `images` prop: an array, a single value, or nothing. */
  datatype ImagesProp = ImageList(items: seq<string>) | SingleImage(url: string) | NoImage

  /** `Array.isArray(images) ? images : (images ? [images] : [])`. */
  function ImageArray(images: ImagesProp): seq<string> {
    match images
    case ImageList(items) => items
    case SingleImage(url) => if url != "" then [url] else []
    case NoImage => []
  }

  /** The placeholder shows exactly for an empty array, an empty string or
      a missing prop; an array is used as it is, and a single image becomes
      a list of one. */
  lemma PlaceholderIff(images: ImagesProp)
    ensures ImageArray(images) == [] <==>
      images == ImageList([]) || images == SingleImage("") || images == NoImage
    ensures images.ImageList? ==> ImageArray(images) == images.items
    ensures images.SingleImage? && images.url != "" ==> ImageArray(images) == [images.url]
  {
  }

  /** The updater `goToPrevious` passes to `setCurrentIndex`. */
  function Previous(i: int, n: nat): int {
    if i == 0 then n - 1 else i - 1
  }

  /** The updater of `goToNext`. */
  function Next(i: int, n: nat): int {
    if i == n - 1 then 0 else i + 1
  }

  /** Both arrows keep an index into the list inside it; `goToNext` wraps
      the last index to 0 and `goToPrevious` wraps 0 to the last. */
  lemma ArrowsStayInRange(i: int, n: nat)
    requires 0 <= i < n
    ensures 0 <= Next(i, n) < n && 0 <= Previous(i, n) < n
    ensures Next(i, n) == (i + 1) % n
    ensures Previous(i, n) == (i - 1 + n) % n
  {
    if i == n - 1 { ModShifted(i + 1, n); } else { ModSmall(i + 1, n); }
    if i == 0 { ModSmall(i - 1 + n, n); } else { ModShifted(i - 1 + n, n); }
  }

  lemma ModSmall(x: int, n: nat)
    requires 0 <= x < n
    ensures x % n == x
  {
  }

  lemma ModShifted(x: int, n: nat)
    requires n <= x < 2 * n
    ensures x % n == x - n
  {
    assert x == (x - n) + 1 * n;
  }

  /** One arrow undoes the other. */
  lemma ArrowsAreInverse(i: int, n: nat)
    requires 0 <= i < n
    ensures Previous(Next(i, n), n) == i
    ensures Next(Previous(i, n), n) == i
  {
  }

  /** The index after `k` presses of the right arrow. */
  function Advance(i: int, k: nat, n: nat): int {
    if k == 0 then i else Next(Advance(i, k - 1, n), n)
  }

  /** Up to `n` presses wrap around at most once. */
  lemma {:induction false} AdvanceWrapsOnce(i: int, k: nat, n: nat)
    requires 0 <= i < n && k <= n
    ensures Advance(i, k, n) == if i + k < n then i + k else i + k - n
  {
    if k > 0 {
      AdvanceWrapsOnce(i, k - 1, n);
    }
  }

  /** `n` presses of the right arrow come back to the image they started on. */
  lemma FullCycle(i: int, n: nat)
    requires 0 <= i < n
    ensures Advance(i, n, n) == i
  {
    AdvanceWrapsOnce(i, n, n);
  }

  /** The component: the list of the render and the `currentIndex` state. */
  class Gallery {
    const imageArray: seq<string>
    var currentIndex: int

    /** The index points into the list. */
    predicate Valid()
      reads this
    {
      0 <= currentIndex < |imageArray|
    }

    /** `useState(0)`: a gallery with images starts on the first. */
    constructor (images: ImagesProp)
      ensures imageArray == ImageArray(images) && currentIndex == 0
      ensures imageArray != [] ==> Valid()
    {
      imageArray := ImageArray(images);
      currentIndex := 0;
    }

    /** `goToPrevious`: defined only past the placeholder, so with at least
        one image. */
    method GoToPrevious()
      requires imageArray != []
      modifies this
      ensures currentIndex == Previous(old(currentIndex), |imageArray|)
      ensures old(Valid()) ==> Valid()
    {
      currentIndex := if currentIndex == 0 then |imageArray| - 1 else currentIndex - 1;
    }

    method GoToNext()
      requires imageArray != []
      modifies this
      ensures currentIndex == Next(old(currentIndex), |imageArray|)
      ensures old(Valid()) ==> Valid()
    {
      currentIndex := if currentIndex == |imageArray| - 1 then 0 else currentIndex + 1;
    }

    /** `goToImage(index)`, called by the thumbnails. */
    method GoToImage(index: int)
      modifies this
      ensures currentIndex == index
    {
      currentIndex := index;
    }
  }
}
