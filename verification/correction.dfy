/** The scroll handler that keeps up the infinite-loop illusion: when the viewport
    reaches the clone region or the very start, it jumps the scroll offset to the
    equivalent place among the real cards, then ignores scroll events for a cooldown. */
module Correction {
  import opened Base
  import opened Geometry

  /** The state the handlers share across events: the viewport's scroll offset, whether
      the latest scroll was started by a navigation button, and whether corrections
      are suppressed while a cooldown runs. */
  datatype ScrollState = ScrollState(offset: int, buttonNavigation: bool, disableScroll: bool)

  /** What a scroll event produces: the next state, the target of the animated scroll
      it issues (if any), and whether it started the cooldown timer. */
  datatype ScrollOutcome = ScrollOutcome(state: ScrollState, animateTo: Option<int>, cooldownStarted: bool)

  /** The viewport shows the clone region (or is past it). */
  predicate AtForwardBoundary(g: Snapshot, scrollWidth: nat, pos: int) {
    g.clonesWidth + pos >= scrollWidth
  }

  /** The viewport is at (or before) the very start of the strip. */
  predicate AtBackwardBoundary(pos: int) {
    pos <= 0
  }

  /** One scroll event, the viewport sitting at `s.offset` in a strip `scrollWidth` wide.
      The forward test is made first. A correction after a button press jumps and then
      animates one card on and clears the button flag; a correction of an organic scroll
      only jumps. Either correction starts the cooldown. */
  function OnScroll(s: ScrollState, scrollWidth: nat, g: Snapshot): (r: ScrollOutcome)
    // while the cooldown runs, a scroll event changes nothing
    ensures s.disableScroll ==> r == ScrollOutcome(s, None, false)
    // away from both boundaries nothing changes; the button flag stays armed
    ensures !AtForwardBoundary(g, scrollWidth, s.offset) && !AtBackwardBoundary(s.offset) ==>
              r == ScrollOutcome(s, None, false)
    // a correction happens exactly when enabled and at a boundary, and it starts the cooldown
    ensures r.cooldownStarted <==>
              !s.disableScroll && (AtForwardBoundary(g, scrollWidth, s.offset) || AtBackwardBoundary(s.offset))
    ensures r.state.disableScroll <==> s.disableScroll || r.cooldownStarted
    // an animation is issued exactly by a correction of a button-started scroll, which clears the flag
    ensures r.animateTo.Some? <==> r.cooldownStarted && s.buttonNavigation
    ensures r.state.buttonNavigation <==> s.buttonNavigation && !r.cooldownStarted
    // forward boundary, checked first
    ensures r.cooldownStarted && AtForwardBoundary(g, scrollWidth, s.offset) ==>
              if s.buttonNavigation
              then r.state.offset == 0 && r.animateTo == Some(g.Pitch() - g.cardLeftSpacing)
              else r.state.offset == 1
    // backward boundary, only when the forward test fails
    ensures r.cooldownStarted && !AtForwardBoundary(g, scrollWidth, s.offset) ==>
              if s.buttonNavigation
              then r.state.offset == g.cardsWidth && r.animateTo == Some(g.cardsWidth - g.cardLeftSpacing)
              else r.state.offset == scrollWidth - g.clonesWidth
  {
    if s.disableScroll then
      ScrollOutcome(s, None, false)
    else if AtForwardBoundary(g, scrollWidth, s.offset) then
      if s.buttonNavigation then
        var jumped := s.(offset := 0);
        ScrollOutcome(jumped.(buttonNavigation := false, disableScroll := true),
                      Some(g.cardWidth + g.gap - g.cardLeftSpacing), true)
      else
        ScrollOutcome(s.(offset := 1, disableScroll := true), None, true)
    else if AtBackwardBoundary(s.offset) then
      if s.buttonNavigation then
        var jumped := s.(offset := g.cardsWidth);
        // the animation target is read back from the offset just written
        ScrollOutcome(jumped.(buttonNavigation := false, disableScroll := true),
                      Some(jumped.offset - g.cardLeftSpacing), true)
      else
        ScrollOutcome(s.(offset := scrollWidth - g.clonesWidth, disableScroll := true), None, true)
    else
      ScrollOutcome(s, None, false)
  }

  /** The cooldown timer firing: corrections are allowed again, nothing else changes. */
  function CooldownExpired(s: ScrollState): (s': ScrollState)
    ensures !s'.disableScroll
    ensures s'.offset == s.offset && s'.buttonNavigation == s.buttonNavigation
  {
    s.(disableScroll := false)
  }

  /** Without the cooldown, an organic backward correction would re-fire at once:
      the offset it lands on passes the forward test. The suppression flag it sets
      makes the scroll event that the jump itself raises a no-op. */
  lemma BackwardLandingIsOnForwardBoundary(s: ScrollState, scrollWidth: nat, g: Snapshot)
    requires !s.disableScroll && !s.buttonNavigation
    requires !AtForwardBoundary(g, scrollWidth, s.offset) && AtBackwardBoundary(s.offset)
    ensures var r := OnScroll(s, scrollWidth, g);
            && AtForwardBoundary(g, scrollWidth, r.state.offset)
            && OnScroll(r.state, scrollWidth, g) == ScrollOutcome(r.state, None, false)
  {
  }

  /** An organic forward correction is stable once the cooldown is over, provided the
      strip is wider than the clone region plus one pixel: the offset 1 it lands on is
      past the backward boundary and short of the forward one. */
  lemma OrganicForwardLandingIsStable(s: ScrollState, scrollWidth: nat, g: Snapshot)
    requires !s.disableScroll && !s.buttonNavigation
    requires AtForwardBoundary(g, scrollWidth, s.offset)
    requires g.clonesWidth + 1 < scrollWidth
    ensures var r := OnScroll(s, scrollWidth, g);
            var later := CooldownExpired(r.state);
            OnScroll(later, scrollWidth, g) == ScrollOutcome(later, None, false)
  {
  }
}
