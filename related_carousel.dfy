/** The related-products strip: how many cards a page shows at each
    viewport width, when the arrows are enabled, how far one arrow click
    scrolls and how many page indicators are drawn. */
module RelatedCarousel {
  import opened Common

  /** The itemsPerView prop; None is an undefined entry. */
  datatype PerView = PerView(mobile: Option<int>, tablet: Option<int>, desktop: Option<int>)

  /** The prop's default, `{ mobile: 1, tablet: 2, desktop: 4 }`. */
  function DefaultPerView(): PerView
  {
    PerView(Some(1), Some(2), Some(4))
  }

  /** `v || d` on a number: undefined and 0 are falsy. */
  function OrElse(v: Option<int>, d: int): int
  {
    if v.Some? && v.value != 0 then v.value else d
  }

  /** handleResize: the items per view for a window width. */
  function ItemsPerView(width: int, cfg: PerView): int
  {
    if width < 640 then OrElse(cfg.mobile, 1)
    else if width < 1024 then OrElse(cfg.tablet, 2)
    else OrElse(cfg.desktop, 4)
  }

  /** With the default prop, and with any prop whose counts grow from
      mobile to tablet to desktop, a wider window never shows fewer cards. */
  lemma ItemsPerViewMonotone(w1: int, w2: int, cfg: PerView)
    requires w1 <= w2
    requires OrElse(cfg.mobile, 1) <= OrElse(cfg.tablet, 2) <= OrElse(cfg.desktop, 4)
    ensures ItemsPerView(w1, cfg) <= ItemsPerView(w2, cfg)
    ensures ItemsPerView(w1, DefaultPerView()) <= ItemsPerView(w2, DefaultPerView())
  {
  }

  /** Every entry positive or missing keeps the count positive. */
  lemma ItemsPerViewPositive(width: int, cfg: PerView)
    requires cfg.mobile.None? || cfg.mobile.value > 0
    requires cfg.tablet.None? || cfg.tablet.value > 0
    requires cfg.desktop.None? || cfg.desktop.value > 0
    ensures ItemsPerView(width, cfg) > 0
  {
  }

  /** Missing or empty products render nothing. */
  predicate Renders(products: Option<seq<string>>)
  {
    products.Some? && |products.value| > 0
  }

  /** The arrows' enablement from the scroll container's measures. */
  function CanScrollLeft(scrollLeft: real): bool
  {
    scrollLeft > 0.0
  }

  function CanScrollRight(scrollLeft: real, scrollWidth: real, clientWidth: real): bool
  {
    scrollLeft < scrollWidth - clientWidth - 10.0
  }

  datatype Direction = Left | Right

  /** The `left` of scrollBy: a page of cards plus their 16-pixel gaps,
      backwards for the left arrow. `itemWidth` is the first card's
      offsetWidth, None when there is no card. */
  function ScrollDelta(dir: Direction, itemWidth: Option<int>, perView: int): int
  {
    var amount := (OrElse(itemWidth, 0) + 16) * perView;
    if dir == Left then -amount else amount
  }

  /** The two arrows move by opposite amounts, each a page of cards and
      gaps. */
  lemma ScrollOpposite(itemWidth: Option<int>, perView: int)
    ensures ScrollDelta(Left, itemWidth, perView) == -ScrollDelta(Right, itemWidth, perView)
    ensures ScrollDelta(Right, itemWidth, perView) == (OrElse(itemWidth, 0) + 16) * perView
    ensures itemWidth.None? ==> ScrollDelta(Right, itemWidth, perView) == 16 * perView
  {
  }

  /** The number of page indicators: ceil(count / perView) when there are
      more cards than fit on a page, none otherwise (and none for a
      negative count per view, whose quotient Array.from clamps to 0). */
  function Indicators(count: nat, perView: int): nat
  {
    if count > perView && perView > 0 then (count + perView - 1) / perView else 0
  }

  /** With a positive page size, the indicators are exactly enough pages
      for the cards: one page fewer would not hold them. */
  lemma IndicatorsCeil(count: nat, perView: int)
    requires perView > 0
    ensures count <= perView ==> Indicators(count, perView) == 0
    ensures count > perView ==>
      var n := Indicators(count, perView);
      n >= 2 && n * perView >= count && (n - 1) * perView < count
  {
    if count > perView {
      var n := Indicators(count, perView);
      var t := count + perView - 1;
      assert t == n * perView + t % perView;
      assert 0 <= t % perView < perView;
      assert n * perView >= count;
      assert (n - 1) * perView < count;
    }
  }

  /** The component's state. */
  class Strip {
    var canScrollLeft: bool
    var canScrollRight: bool
    var currentItemsPerView: int
    const itemsPerView: PerView

    constructor (itemsPerView: PerView)
      ensures !canScrollLeft && !canScrollRight && currentItemsPerView == 4
      ensures this.itemsPerView == itemsPerView
    {
      canScrollLeft := false;
      canScrollRight := false;
      currentItemsPerView := 4;
      this.itemsPerView := itemsPerView;
    }

    /** handleResize, run on mount and on every resize. */
    method HandleResize(width: int)
      modifies this
      ensures currentItemsPerView == ItemsPerView(width, itemsPerView)
      ensures canScrollLeft == old(canScrollLeft) && canScrollRight == old(canScrollRight)
    {
      if width < 640 {
        currentItemsPerView := OrElse(itemsPerView.mobile, 1);
      } else if width < 1024 {
        currentItemsPerView := OrElse(itemsPerView.tablet, 2);
      } else {
        currentItemsPerView := OrElse(itemsPerView.desktop, 4);
      }
    }

    /** checkScroll, run on mount and on every scroll event. */
    method CheckScroll(scrollLeft: real, scrollWidth: real, clientWidth: real)
      modifies this
      ensures canScrollLeft == CanScrollLeft(scrollLeft)
      ensures canScrollRight == CanScrollRight(scrollLeft, scrollWidth, clientWidth)
      ensures currentItemsPerView == old(currentItemsPerView)
    {
      canScrollLeft := scrollLeft > 0.0;
      canScrollRight := scrollLeft < scrollWidth - clientWidth - 10.0;
    }
  }

  /** Content that fits within ten pixels of the container never enables
      an arrow at the start; content that overflows by more always leaves
      at least one arrow enabled, and the right one is off once the end is
      within ten pixels. */
  lemma ScrollArrows(scrollWidth: real, clientWidth: real, scrollLeft: real)
    requires scrollLeft >= 0.0
    ensures scrollWidth <= clientWidth + 10.0 ==>
      !CanScrollRight(scrollLeft, scrollWidth, clientWidth) && !CanScrollLeft(0.0)
    ensures scrollWidth > clientWidth + 10.0 ==>
      CanScrollLeft(scrollLeft) || CanScrollRight(scrollLeft, scrollWidth, clientWidth)
    ensures scrollLeft + clientWidth + 10.0 >= scrollWidth ==> !CanScrollRight(scrollLeft, scrollWidth, clientWidth)
  {
  }
}
