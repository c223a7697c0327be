/** Button navigation (one card back or forward, animated) and the initial placement
    of the viewport once the strip has been measured. */
module Navigation {
  import opened Base
  import opened Geometry
  import opened Correction

  /** What a navigation call produces: the next state and the target of the animated scroll. */
  datatype NavOutcome = NavOutcome(state: ScrollState, animateTo: int)

  /** The offset at which card `k` of the strip sits centred in the viewport. */
  function Centered(g: Snapshot, k: int): int {
    k * g.Pitch() - g.cardLeftSpacing
  }

  /** "Back": arm the button flag and animate one card pitch back from the current offset. */
  function ScrollLeft(s: ScrollState, g: Snapshot): (r: NavOutcome)
    ensures r.state == s.(buttonNavigation := true)
    ensures s.offset - r.animateTo == g.Pitch()
  {
    NavOutcome(s.(buttonNavigation := true), s.offset - (g.cardWidth + g.gap))
  }

  /** "Forward": arm the button flag and animate one card pitch on from the current offset. */
  function ScrollRight(s: ScrollState, g: Snapshot): (r: NavOutcome)
    ensures r.state == s.(buttonNavigation := true)
    ensures r.animateTo - s.offset == g.Pitch()
  {
    NavOutcome(s.(buttonNavigation := true), s.offset + g.cardWidth + g.gap)
  }

  /** The two buttons leave the same state behind and aim at targets mirrored about the
      current offset, one card apart from it in a measured geometry. */
  lemma NavigationSymmetric(s: ScrollState, g: Snapshot)
    requires g.cardWidth >= 1 && g.gap >= 0
    ensures ScrollLeft(s, g).state == ScrollRight(s, g).state
    ensures ScrollLeft(s, g).animateTo + ScrollRight(s, g).animateTo == 2 * s.offset
    ensures ScrollLeft(s, g).animateTo < s.offset < ScrollRight(s, g).animateTo
  {
  }

  /** Once the strip has a width, the viewport is placed with card `itemCount`, the first
      clone, centred; before that, nothing moves. */
  function InitialPosition(s: ScrollState, scrollWidth: nat, g: Snapshot): (s': ScrollState)
    ensures scrollWidth == 0 ==> s' == s
    ensures s'.buttonNavigation == s.buttonNavigation && s'.disableScroll == s.disableScroll
    ensures scrollWidth != 0 && g.CardsWidthConsistent() ==> s'.offset == Centered(g, g.itemCount)
  {
    if scrollWidth != 0 then s.(offset := g.cardsWidth - g.cardLeftSpacing) else s
  }

  /** A forward button press from the centred first clone (the initial position) that
      scrolls into the clone region is corrected to the card one full lap earlier: the
      correction's animation ends at the navigation's own target minus the width of the
      real cards. */
  lemma ButtonForwardWrapKeepsDestination(s: ScrollState, scrollWidth: nat, g: Snapshot, reached: int)
    requires g.CardsWidthConsistent()
    requires s.offset == Centered(g, g.itemCount) && !s.disableScroll
    requires AtForwardBoundary(g, scrollWidth, reached)
    ensures var nav := ScrollRight(s, g);
            var r := OnScroll(nav.state.(offset := reached), scrollWidth, g);
            r.animateTo == Some(nav.animateTo - g.cardsWidth) && !r.state.buttonNavigation
  {
  }

  /** A back button press from the centred second card that reaches the start of the
      strip is corrected to the card one full lap later: the correction's animation ends
      at the navigation's own target plus the width of the real cards. */
  lemma ButtonBackWrapKeepsDestination(s: ScrollState, scrollWidth: nat, g: Snapshot, reached: int)
    requires g.CardsWidthConsistent()
    requires s.offset == Centered(g, 1) && !s.disableScroll
    requires !AtForwardBoundary(g, scrollWidth, reached) && AtBackwardBoundary(reached)
    ensures var nav := ScrollLeft(s, g);
            var r := OnScroll(nav.state.(offset := reached), scrollWidth, g);
            r.animateTo == Some(nav.animateTo + g.cardsWidth) && !r.state.buttonNavigation
  {
  }
}
