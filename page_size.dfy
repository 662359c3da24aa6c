/**
 * The carousel's responsive page size (`getItemsPerSlide`): how many
 * examples one slide shows, from the window's inner width. A missing
 * window object (rendering without a browser) is `None`.
 */
module PageSize {
  import opened Wrappers

  /** The widest layout shows three items; the state starts there before the first measurement. */
  const MaxItemsPerSlide := 3
  const InitialItemsPerSlide := 3

  /** 3 from 768 px up, 2 from 640 px up, 1 below; 3 without a window. */
  function ItemsPerSlide(innerWidth: Option<int>): (k: int)
    ensures 1 <= k <= MaxItemsPerSlide
    ensures innerWidth.None? ==> k == MaxItemsPerSlide
    ensures innerWidth.Some? ==>
      (k == 3 <==> innerWidth.value >= 768) &&
      (k == 1 <==> innerWidth.value < 640)
  {
    match innerWidth
    case Some(w) =>
      if w >= 768 then 3
      else if w >= 640 then 2
      else 1
    case None => 3
  }

  /** A wider window never shows fewer items per slide. */
  lemma ItemsPerSlideMonotone(w1: int, w2: int)
    requires w1 <= w2
    ensures ItemsPerSlide(Some(w1)) <= ItemsPerSlide(Some(w2))
  {
  }

  /** The value before any measurement is the value without a window, and no width exceeds it. */
  lemma InitialIsNoWindowDefault(w: int)
    ensures InitialItemsPerSlide == ItemsPerSlide(None)
    ensures ItemsPerSlide(Some(w)) <= InitialItemsPerSlide
  {
  }

  /** The breakpoints, including both sides of each boundary. */
  lemma BreakpointExamples()
    ensures ItemsPerSlide(Some(1024)) == 3 && ItemsPerSlide(Some(768)) == 3
    ensures ItemsPerSlide(Some(767)) == 2 && ItemsPerSlide(Some(700)) == 2 && ItemsPerSlide(Some(640)) == 2
    ensures ItemsPerSlide(Some(639)) == 1 && ItemsPerSlide(Some(400)) == 1
  {
  }
}
