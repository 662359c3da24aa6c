/**
 * The "Photo & Video Examples" carousel (`PhotoVideoExamples`): a fixed
 * list of examples, the index of the first one shown and the number shown
 * per slide. The arrows step the index by a page with wrap-around, the
 * dots jump to the start of a page, and a resize replaces the page size
 * without touching the index.
 */
module PhotoVideo {
  import opened Wrappers
  import Js
  import AssetPath
  import PageSize
  import Pager

  datatype MediaKind = Image | Video

  datatype Example = Example(kind: MediaKind, src: string, alt: string)

  /** One example whose file is resolved under `baseUrl`. */
  function Media(baseUrl: Option<string>, kind: MediaKind, path: string, alt: string): (e: Example)
    ensures AssetPath.EffectiveBase(baseUrl) <= e.src
  {
    Example(kind, AssetPath.GetAssetPath(baseUrl, path), alt)
  }

  /** The nine examples in page order. */
  function Examples(baseUrl: Option<string>): (es: seq<Example>)
    ensures |es| == 9
  {
    [ Media(baseUrl, Image, "/portfolio/content photo examples/Chez Mia _ Interior shoot-073.jpg", "Interior Photography"),
      Media(baseUrl, Video, "/portfolio/Vitalik/2025.09.27 influ video .MP4", "Influencer Video"),
      Media(baseUrl, Image, "/portfolio/content photo examples/Chez Mia-055.jpg", "Food Photography"),
      Media(baseUrl, Image, "/portfolio/Events&Influencers/Influencers Event.JPG", "Event Photography"),
      Media(baseUrl, Video, "/portfolio/Vitalik/copy_6A1F0CDF-33CA-46A2-9273-C4AD5552033A.MP4", "Creative Video"),
      Media(baseUrl, Image, "/portfolio/content photo examples/Tezza-2728.jpg", "Portrait Photography"),
      Media(baseUrl, Image, "/portfolio/content photo examples/21.png", "Event Coverage"),
      Media(baseUrl, Video, "/portfolio/Vitalik/Instagram.MP4", "Instagram Content"),
      Media(baseUrl, Image, "/portfolio/content photo examples/Tezza-3250.JPG", "Lifestyle Photography") ]
  }

  class Carousel<T> {
    const examples: seq<T>
    var currentIndex: int
    var itemsPerSlide: int

    /** The index names an example and the page size is one the size policy can produce. */
    ghost predicate Valid()
      reads this
    {
      PageSize.MaxItemsPerSlide <= |examples| &&
      0 <= currentIndex < |examples| &&
      1 <= itemsPerSlide <= PageSize.MaxItemsPerSlide
    }

    /** Mounting: index 0 and the desktop-first page size, before any measurement. */
    constructor (examples: seq<T>)
      requires PageSize.MaxItemsPerSlide <= |examples|
      ensures Valid()
      ensures this.examples == examples
      ensures currentIndex == 0 && itemsPerSlide == PageSize.InitialItemsPerSlide
    {
      this.examples := examples;
      currentIndex := 0;
      itemsPerSlide := PageSize.InitialItemsPerSlide;
    }

    /** The measurement on mount and on every resize: the page size is replaced, the index is kept. */
    method Resize(innerWidth: Option<int>)
      requires Valid()
      modifies this
      ensures Valid()
      ensures itemsPerSlide == PageSize.ItemsPerSlide(innerWidth)
      ensures currentIndex == old(currentIndex)
    {
      itemsPerSlide := PageSize.ItemsPerSlide(innerWidth);
    }

    /** The right arrow. */
    method NextSlide()
      requires Valid()
      modifies this
      ensures Valid()
      ensures currentIndex == Pager.Next(old(currentIndex), itemsPerSlide, |examples|)
      ensures itemsPerSlide == old(itemsPerSlide)
    {
      currentIndex := Js.Rem(currentIndex + itemsPerSlide, |examples|);
    }

    /** The left arrow. */
    method PrevSlide()
      requires Valid()
      modifies this
      ensures Valid()
      ensures currentIndex == Pager.Prev(old(currentIndex), itemsPerSlide, |examples|)
      ensures itemsPerSlide == old(itemsPerSlide)
    {
      currentIndex := Js.Rem(currentIndex - itemsPerSlide + |examples|, |examples|);
    }

    /** A click on dot p, one of the dots shown: jump to the first item of page p, which lights that dot. */
    method SelectDot(p: int)
      requires Valid()
      requires 0 <= p < Pager.PageCount(|examples|, itemsPerSlide)
      modifies this
      ensures Valid()
      ensures currentIndex == p * itemsPerSlide && itemsPerSlide == old(itemsPerSlide)
      ensures Pager.Dots(currentIndex, itemsPerSlide, |examples|)[p]
    {
      Pager.JumpTargetInRange(|examples|, itemsPerSlide, p);
      currentIndex := p * itemsPerSlide;
    }

    /** The examples the slide renders: a run of at most a page from the index, cut off at the end. */
    method VisibleItems() returns (w: seq<T>)
      requires Valid()
      ensures 1 <= |w| <= itemsPerSlide
      ensures w == examples[currentIndex..Js.Min(currentIndex + itemsPerSlide, |examples|)]
    {
      w := Pager.Window(examples, currentIndex, itemsPerSlide);
    }

    /** The dots under the slide: one per page, dot p lit exactly when the index is the first item of page p. */
    method Indicators() returns (dots: seq<bool>)
      requires Valid()
      ensures |dots| * itemsPerSlide >= |examples| > (|dots| - 1) * itemsPerSlide
      ensures forall p :: 0 <= p < |dots| ==> (dots[p] <==> currentIndex == p * itemsPerSlide)
      ensures Pager.CountTrue(dots) == if currentIndex % itemsPerSlide == 0 then 1 else 0
    {
      dots := Pager.Dots(currentIndex, itemsPerSlide, |examples|);
      Pager.ActiveDotCount(currentIndex, itemsPerSlide, |examples|);
    }
  }

  /** The carousel the page mounts: its own nine examples, at index 0, three per slide. */
  method MountPageCarousel(baseUrl: Option<string>) returns (c: Carousel<Example>)
    ensures fresh(c) && c.Valid() && c.examples == Examples(baseUrl)
    ensures c.currentIndex == 0 && c.itemsPerSlide == 3
  {
    c := new Carousel(Examples(baseUrl));
  }

  /** Nine examples at three per slide: forward 0, 3, 6, 0, and back from 0 to 6. */
  method ArrowScenario<T>(examples: seq<T>)
    requires |examples| == 9
  {
    var c := new Carousel(examples);
    c.NextSlide();
    ghost var i1 := c.currentIndex;
    c.NextSlide();
    ghost var i2 := c.currentIndex;
    c.NextSlide();
    ghost var i3 := c.currentIndex;
    c.PrevSlide();
    ghost var i4 := c.currentIndex;
    assert i1 == Pager.Next(0, 3, 9) && i2 == Pager.Next(i1, 3, 9);
    assert i3 == Pager.Next(i2, 3, 9) && i4 == Pager.Prev(i3, 3, 9);
    Pager.NineByThreeSteps();
    assert i1 == 3 && i2 == 6 && i3 == 0 && i4 == 6;
  }

  /** The second dot jumps to 3; a resize to two per slide keeps index 3, which then lights no dot. */
  method DotAndResizeScenario<T>(examples: seq<T>)
    requires |examples| == 9
  {
    var c := new Carousel(examples);
    Pager.NineItemsPageCounts();
    c.SelectDot(1);
    c.Resize(Some(700));
    assert c.currentIndex == 3 && c.itemsPerSlide == 2;
    var dots := c.Indicators();
    assert Pager.CountTrue(dots) == 0;
  }
}
