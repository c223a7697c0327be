/** Layout quantities the carousel derives from the measured viewport and cards
    (viewport width, card width, gap, clone count, and the widths built from them). */
module Geometry {
  import opened Base
  import opened JsMath

  /** What the host page reports. Widths of an element that is not mounted read as 0,
      which is what `?.` followed by `|| 0` yields. The second card's left offset is
      `None` when there is no second card. */
  datatype Measurements = Measurements(
    clientWidth: nat,
    firstCardWidth: nat,
    firstNodeLeft: int,
    firstNodeRectWidth: int,
    secondNodeLeft: Option<int>)

  /** The derived layout: per-card width and gap, how many cards are cloned, the
      width of the clone region, the width of the real cards, and the centring offset. */
  datatype Snapshot = Snapshot(
    clientWidth: nat,
    cardWidth: int,
    gap: int,
    itemCount: nat,
    illusionCount: int,
    clonesWidth: int,
    cardsWidth: int,
    cardLeftSpacing: int)
  {
    /** Distance from one card's left edge to the next card's left edge. */
    function Pitch(): int {
      cardWidth + gap
    }

    /** The real cards span exactly `itemCount` card pitches. */
    predicate CardsWidthConsistent() {
      cardsWidth == itemCount * Pitch()
    }

    /** The invariants every measured geometry satisfies. */
    predicate Valid() {
      && cardWidth >= 1
      && gap >= 0
      && illusionCount >= 3
      && clonesWidth == illusionCount * Pitch()
      && CardsWidthConsistent()
      && 2 * cardLeftSpacing - 1 <= clientWidth - cardWidth < 2 * cardLeftSpacing + 1
    }
  }

  /** The card width, defaulting to 1 when it measures 0 so that nothing divides by zero. */
  function CardWidth(measured: nat): (w: int)
    ensures w >= 1
    ensures measured != 0 ==> w == measured
    ensures measured == 0 ==> w == 1
  {
    if measured == 0 then 1 else measured
  }

  /** The left offset of the second card, 0 when there is none. */
  function SecondNodeLeft(m: Measurements): int {
    match m.secondNodeLeft
    case None => 0
    case Some(left) => left
  }

  /** The gap: the unsigned distance between the right edge of the first card and
      the left edge of the second. */
  function Gap(m: Measurements): (gap: int)
    ensures gap >= 0
    ensures var rightEdge := m.firstNodeLeft + m.firstNodeRectWidth;
            rightEdge + gap == SecondNodeLeft(m) || rightEdge - gap == SecondNodeLeft(m)
  {
    var d := m.firstNodeLeft + m.firstNodeRectWidth - SecondNodeLeft(m);
    if d < 0 then -d else d
  }

  /** How many leading cards are cloned: the number of cards that fit in the
      viewport, rounded to nearest, but never fewer than 3. */
  function IllusionCount(clientWidth: nat, cardWidth: int): (c: int)
    requires cardWidth >= 1
    ensures c >= 3
    ensures 2 * c * cardWidth + cardWidth > 2 * clientWidth
    ensures c > 3 ==> 2 * c * cardWidth - cardWidth <= 2 * clientWidth
  {
    var fit := RoundDiv(clientWidth, cardWidth);
    var c := Max(3, fit);
    MulMonotone(2 * cardWidth, fit, c);
    c
  }

  /** The centring offset: half of the room the viewport leaves beside one card, rounded. */
  function CardLeftSpacing(clientWidth: nat, cardWidth: int): (s: int)
    ensures 2 * s - 1 <= clientWidth - cardWidth < 2 * s + 1
  {
    RoundDiv(clientWidth - cardWidth, 2)
  }

  /** The whole geometry of a carousel holding `itemCount` real cards. */
  function Measure(m: Measurements, itemCount: nat): (g: Snapshot)
    ensures g.Valid()
    ensures g.clientWidth == m.clientWidth && g.itemCount == itemCount
    ensures m.firstCardWidth != 0 ==> g.cardWidth == m.firstCardWidth
    ensures m.firstCardWidth == 0 ==> g.cardWidth == 1
    // the clone count is the nearest whole number of cards that fit, but at least 3
    ensures 2 * g.illusionCount * g.cardWidth + g.cardWidth > 2 * g.clientWidth
    ensures g.illusionCount > 3 ==> 2 * g.illusionCount * g.cardWidth - g.cardWidth <= 2 * g.clientWidth
    ensures g.gap == Gap(m)
    ensures g.clonesWidth >= 0 && g.cardsWidth >= 0
    // the clone region covers the viewport up to less than half a card
    ensures 2 * g.clonesWidth + g.cardWidth > 2 * g.clientWidth
  {
    var cardWidth := CardWidth(m.firstCardWidth);
    var gap := Gap(m);
    var count := IllusionCount(m.clientWidth, cardWidth);
    var clonesWidth := count * (cardWidth + gap);
    var cardsWidth := itemCount * (cardWidth + gap);
    CloneRegionCoversViewport(m.clientWidth, cardWidth, gap, count);
    MulMonotone(itemCount, 0, cardWidth + gap);
    Snapshot(m.clientWidth, cardWidth, gap, itemCount, count, clonesWidth, cardsWidth,
             CardLeftSpacing(m.clientWidth, cardWidth))
  }

  /** Widening each cloned card by the gap only widens the clone region, so the
      coverage the clone count gives carries over to the region with its gaps. */
  lemma CloneRegionCoversViewport(clientWidth: nat, cardWidth: int, gap: int, count: int)
    requires cardWidth >= 1 && gap >= 0 && count >= 3
    requires 2 * count * cardWidth + cardWidth > 2 * clientWidth
    ensures count * (cardWidth + gap) >= 0
    ensures 2 * (count * (cardWidth + gap)) + cardWidth > 2 * clientWidth
  {
    MulMonotone(count, cardWidth, cardWidth + gap);
    assert 2 * count * cardWidth == 2 * (count * cardWidth);
  }

  /** The clone region is not always as wide as the viewport: rounding to nearest can
      clone one card fewer than would fill it. A 1000-wide viewport of 300-wide cards
      without gaps clones 3 cards, 900 wide. */
  lemma CloneRegionCanBeNarrowerThanViewport()
    ensures var g := Measure(Measurements(1000, 300, 0, 300, Some(300)), 5);
            g.illusionCount == 3 && g.clonesWidth == 900 < g.clientWidth
  {
  }
}
