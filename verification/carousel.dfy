/** The carousel as one event-driven machine: every handler of the component is an
    event that maps the instance state to the next state plus the animated scroll it
    issues. The cooldown timer is part of the state, and its firing is an event. */
module CarouselMachine {
  import opened Base
  import opened Geometry
  import opened Clones
  import opened Correction
  import opened Navigation
  import opened Swipe

  /** The per-instance state that survives between handler calls. */
  datatype Carousel = Carousel(scroll: ScrollState, touch: TouchState, cooldownPending: bool)

  /** The measured layout the handlers read: the geometry and the strip's scroll width. */
  datatype Layout = Layout(geometry: Snapshot, scrollWidth: nat)

  datatype Event =
    | Scrolled(pos: int)          // the viewport reports a scroll to `pos`
    | CooldownElapsed             // the 150 ms timer fires
    | ButtonBack                  // back arrow or the owner's scrollLeft()
    | ButtonForward               // forward arrow or the owner's scrollRight()
    | TouchStarted(x: Option<int>)
    | TouchMoved(x: Option<int>)
    | TouchEnded
    | Measured                    // the layout effect that places the viewport initially

  /** One handled event: the next state, the animated scroll issued, and whether a
      scroll correction took place. */
  datatype StepOutcome = StepOutcome(next: Carousel, animateTo: Option<int>, corrected: bool)

  /** A freshly mounted carousel: offset 0, no flag set, no touch, no timer. */
  const Initial: Carousel := Carousel(ScrollState(0, false, false), TouchState(None, None), false)

  /** The suppression flag is set exactly while a cooldown timer is pending, so it is
      never stuck: some timer will clear it. */
  predicate LockConsistent(c: Carousel) {
    c.scroll.disableScroll == c.cooldownPending
  }

  function Navigate(c: Carousel, d: Direction, g: Snapshot): StepOutcome {
    var nav := if d == Forward then ScrollRight(c.scroll, g) else ScrollLeft(c.scroll, g);
    StepOutcome(c.(scroll := nav.state), Some(nav.animateTo), false)
  }

  function Step(c: Carousel, e: Event, layout: Layout): (r: StepOutcome)
    // only a scroll event corrects, and a correction leaves a pending cooldown behind
    ensures r.corrected ==> e.Scrolled? && r.next.cooldownPending && r.next.scroll.disableScroll
    // the touch coordinates change only on touch events
    ensures !(e.TouchStarted? || e.TouchMoved? || e.TouchEnded?) ==> r.next.touch == c.touch
    // a timer is started only by a correction and cleared only when it fires
    ensures r.next.cooldownPending != c.cooldownPending ==>
              (r.corrected && !c.cooldownPending) || (e.CooldownElapsed? && c.cooldownPending)
  {
    var g := layout.geometry;
    match e
    case Scrolled(pos) =>
      var o := OnScroll(c.scroll.(offset := pos), layout.scrollWidth, g);
      StepOutcome(Carousel(o.state, c.touch, c.cooldownPending || o.cooldownStarted),
                  o.animateTo, o.cooldownStarted)
    case CooldownElapsed =>
      if c.cooldownPending then
        StepOutcome(c.(scroll := CooldownExpired(c.scroll), cooldownPending := false), None, false)
      else
        StepOutcome(c, None, false)
    case ButtonBack => Navigate(c, Backward, g)
    case ButtonForward => Navigate(c, Forward, g)
    case TouchStarted(x) => StepOutcome(c.(touch := OnTouchStart(c.touch, x)), None, false)
    case TouchMoved(x) => StepOutcome(c.(touch := OnTouchMove(c.touch, x)), None, false)
    case TouchEnded =>
      var o := OnTouchEnd(c.touch);
      var c' := c.(touch := o.touch);
      if o.swipe.Some? then Navigate(c', o.swipe.value, g) else StepOutcome(c', None, false)
    case Measured =>
      StepOutcome(c.(scroll := InitialPosition(c.scroll, layout.scrollWidth, g)), None, false)
  }

  /** The state after a sequence of events, and how many corrections they caused. */
  datatype RunOutcome = RunOutcome(final: Carousel, corrections: nat)

  function Run(c: Carousel, events: seq<Event>, layout: Layout): RunOutcome
    decreases |events|
  {
    if |events| == 0 then RunOutcome(c, 0)
    else
      var o := Step(c, events[0], layout);
      var rest := Run(o.next, events[1..], layout);
      RunOutcome(rest.final, rest.corrections + (if o.corrected then 1 else 0))
  }

  lemma StepKeepsLockConsistent(c: Carousel, e: Event, layout: Layout)
    requires LockConsistent(c)
    ensures LockConsistent(Step(c, e, layout).next)
  {
  }

  /** From a mounted carousel, every sequence of events keeps the suppression flag in
      step with the pending timer. */
  lemma {:induction false} RunKeepsLockConsistent(c: Carousel, events: seq<Event>, layout: Layout)
    requires LockConsistent(c)
    ensures LockConsistent(Run(c, events, layout).final)
    decreases |events|
  {
    if |events| > 0 {
      StepKeepsLockConsistent(c, events[0], layout);
      RunKeepsLockConsistent(Step(c, events[0], layout).next, events[1..], layout);
    }
  }

  /** While the cooldown has not fired, no event of any kind causes a correction, and the
      suppression flag and the timer both stay set. */
  lemma {:induction false} CooldownSuppressesCorrections(c: Carousel, events: seq<Event>, layout: Layout)
    requires c.scroll.disableScroll && c.cooldownPending
    requires forall i :: 0 <= i < |events| ==> !events[i].CooldownElapsed?
    ensures Run(c, events, layout).corrections == 0
    ensures Run(c, events, layout).final.scroll.disableScroll
    ensures Run(c, events, layout).final.cooldownPending
    decreases |events|
  {
    if |events| > 0 {
      CooldownSuppressesCorrections(Step(c, events[0], layout).next, events[1..], layout);
    }
  }

  /** A second boundary crossing before the cooldown fires is ignored; the same crossing
      after it fires is corrected. */
  lemma SecondCrossingNeedsCooldown(c: Carousel, layout: Layout, first: int, second: int)
    requires LockConsistent(c) && !c.scroll.disableScroll
    requires AtForwardBoundary(layout.geometry, layout.scrollWidth, first)
    requires AtForwardBoundary(layout.geometry, layout.scrollWidth, second)
    ensures Run(c, [Scrolled(first), Scrolled(second)], layout).corrections == 1
    ensures Run(c, [Scrolled(first), CooldownElapsed, Scrolled(second)], layout).corrections == 2
  {
    var s1 := Step(c, Scrolled(first), layout);
    assert s1.corrected && s1.next.scroll.disableScroll && s1.next.cooldownPending;
    var early := Step(s1.next, Scrolled(second), layout);
    assert !early.corrected;
    assert Run(c, [Scrolled(first), Scrolled(second)], layout).corrections
        == Run(s1.next, [Scrolled(second)], layout).corrections + 1;
    assert Run(s1.next, [Scrolled(second)], layout).corrections == 0;
    var s2 := Step(s1.next, CooldownElapsed, layout);
    assert !s2.next.scroll.disableScroll;
    var late := Step(s2.next, Scrolled(second), layout);
    assert late.corrected;
    assert Run(s2.next, [Scrolled(second)], layout).corrections == 1;
    assert Run(s1.next, [CooldownElapsed, Scrolled(second)], layout).corrections == 1;
  }

  /** A touch that ends more than 50 pixels left of where it started navigates forward
      exactly as the forward button does, and clears the touch. */
  lemma LeftSwipeIsForwardButton(c: Carousel, layout: Layout, start: int, end: int)
    requires start != 0 && end != 0 && start - end > MinSwipeDistance
    requires c.touch == TouchState(Some(start), Some(end))
    ensures var r := Step(c, TouchEnded, layout);
            && r.next.touch == TouchState(None, None)
            && r.next.scroll == Step(c, ButtonForward, layout).next.scroll
            && r.animateTo == Some(c.scroll.offset + layout.geometry.Pitch())
  {
  }

  /** A touch that ends more than 50 pixels right of where it started navigates back
      exactly as the back button does, and clears the touch. */
  lemma RightSwipeIsBackButton(c: Carousel, layout: Layout, start: int, end: int)
    requires start != 0 && end != 0 && end - start > MinSwipeDistance
    requires c.touch == TouchState(Some(start), Some(end))
    ensures var r := Step(c, TouchEnded, layout);
            && r.next.touch == TouchState(None, None)
            && r.next.scroll == Step(c, ButtonBack, layout).next.scroll
            && r.animateTo == Some(c.scroll.offset - layout.geometry.Pitch())
  {
  }

  /** Five real cards with three clones render eight cards, and an organic scroll into the
      clone region puts the viewport at offset 1. */
  lemma FiveCardExample(children: seq<Item<int, int>>, keys: seq<int>, g: Snapshot, pos: int)
    requires |children| == 5 && |keys| == 3
    requires g.Valid() && g.illusionCount == 3 && g.itemCount == 5
    requires pos >= g.cardsWidth
    ensures |RenderChildren(children, g.illusionCount, keys)| == 8
    ensures var c := Run(Initial, [Measured, Scrolled(pos)], Layout(g, g.cardsWidth + g.clonesWidth));
            c.corrections == 1 && c.final.scroll.offset == 1
  {
    var layout := Layout(g, g.cardsWidth + g.clonesWidth);
    var placed := Step(Initial, Measured, layout);
    assert !placed.corrected && !placed.next.scroll.disableScroll && !placed.next.scroll.buttonNavigation;
    var wrapped := Step(placed.next, Scrolled(pos), layout);
    assert wrapped.corrected && wrapped.next.scroll.offset == 1;
    assert Run(placed.next, [Scrolled(pos)], layout) == RunOutcome(wrapped.next, 1);
  }
}
