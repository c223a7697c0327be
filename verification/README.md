# Infinite-loop carousel, modelled in Dafny

This project models the scroll-illusion core of an infinite horizontal carousel
component. The component renders a strip of cards followed by clones of the first
few cards. When the viewport scrolls into the clone region, or back to the very
start, it jumps the scroll offset to the equivalent position among the real cards.
It treats scrolls started by its own navigation buttons differently from organic
(drag, swipe, scrollbar) scrolls. After each jump it ignores scroll events until a
cooldown timer fires. A horizontal touch swipe of more than 50 pixels acts like a
button press.

The model is functional. Each event handler is a pure function from the instance
state to the next state, plus the target of any animated scroll it issues.

- `JsMath`: `Math.round` of a quotient, as integer arithmetic, with its
  nearest-integer characterisation and uniqueness.
- `Geometry`: card width (1 when unmeasured), gap, clone count, clone-region
  width, real-cards width and centring offset, all derived from integer
  measurements.
- `Clones`: the rendered strip. The real cards come first, followed by clones of
  the leading cards, each under a key taken from a supply of fresh keys.
- `Correction`: the scroll handler's state machine over (offset,
  button-navigation flag, suppression flag), and the cooldown expiry.
- `Navigation`: the back/forward buttons (also exposed to the owner) and the
  initial placement of the viewport.
- `Swipe`: the touch start, move and end handlers.
- `CarouselMachine`: all events threaded through one state record. The pending
  cooldown timer is part of that record, and the timer firing is an event.
  `Run` replays a sequence of events.

Two behaviours of the code are worth stating on their own:

- The clone count is the viewport width divided by the card width, rounded to
  nearest (src/Carousel/Carousel.tsx:55), not rounded up. So the clone region can be
  narrower than the viewport. `Geometry.Measure` proves that it falls short by less
  than half a card. `Geometry.CloneRegionCanBeNarrowerThanViewport` gives an
  example: a 1000-pixel viewport of 300-pixel cards gets a 900-pixel clone region.
- The touch-end handler returns early when either coordinate is missing or 0
  (src/Carousel/Carousel.tsx:156), and then leaves both coordinates in place.
  `Swipe.OnTouchEnd` models the early return. `Swipe.DragFromScreenEdgeIsIgnored`
  shows that a long drag starting at x = 0 does not navigate.
  `Swipe.GestureOutcome` shows that the next touch start overwrites the kept
  coordinates, so nothing stale leaks into the next gesture.

## Model

| member | source | states |
|---|---|---|
| JsMath.RoundDiv | src/Carousel/Carousel.tsx:77 | `Math.round(a / b)` for b > 0 is an integer r with r - 1/2 <= a/b < r + 1/2, so exact halves round up |
| JsMath.RoundDivUnique | src/Carousel/Carousel.tsx:55 | exactly one integer lies in that nearest-integer window, so the rounding is determined by the window |
| JsMath.Max | src/Carousel/Carousel.tsx:55 | `Math.max` is one of its arguments and at least both |
| Geometry.CardWidth | src/Carousel/Carousel.tsx:49 | the card width is never 0: it is the measured width when there is one, else 1 |
| Geometry.Gap | src/Carousel/Carousel.tsx:62-71 | the gap is the unsigned distance from the first card's right edge to the second card's left edge (0 when there is no second card), never negative |
| Geometry.IllusionCount | src/Carousel/Carousel.tsx:54-56 | the clone count is at least 3; the clones reach past the viewport width minus half a card; above 3 it is no larger than the nearest whole number of cards that fit |
| Geometry.CardLeftSpacing | src/Carousel/Carousel.tsx:77 | the centring offset is half the viewport width left beside one card, rounded to nearest (halves up), also when that width is negative |
| Geometry.Measure | src/Carousel/Carousel.tsx:47-77 | the derived layout is valid: card width is the measured width, or 1 when it measures 0; gap >= 0; the clone count is the nearest whole number of cards that fit, but at least 3; clone and card widths are count times pitch and non-negative; and the clone region covers the viewport up to less than half a card |
| Geometry.CloneRegionCanBeNarrowerThanViewport | src/Carousel/Carousel.tsx:54-56 | with a 1000-wide viewport and 300-wide cards, 3 clones are made and the clone region (900) is narrower than the viewport |
| Clones.Rekey | src/Carousel/Carousel.tsx:180-185 | each copied card keeps its content and takes the next key of the supply, in order, one per card |
| Clones.RenderChildren | src/Carousel/Carousel.tsx:174-190 | the owner's cards always come first, unchanged; with fewer cards than the clone count the strip is the input; otherwise it is one clone-count longer and clone i shows card i's content under fresh key i |
| Clones.RenderedKeysDistinct | src/Carousel/Carousel.tsx:177-186 | with distinct real keys and a fresh key supply, no two rendered cards share a key and no clone reuses a real card's key |
| Clones.RenderedStripRepeatsCyclically | src/Carousel/Carousel.tsx:174-187 | when cloning happens, rendered position j shows the content of real card j mod n, so the strip reads as a loop |
| Correction.OnScroll | src/Carousel/Carousel.tsx:112-144 | during the cooldown and away from both boundaries nothing changes (the button flag stays armed); a correction happens exactly at a boundary and starts the cooldown; the forward test wins; button-started corrections jump to 0 and animate to one pitch minus the centring offset (forward), or jump to the real-cards width and animate to it minus the centring offset (backward), clearing the flag; organic ones jump to 1 (forward) or to the scroll width minus the clone region (backward) |
| Correction.CooldownExpired | src/Carousel/Carousel.tsx:138-141 | the timer firing re-enables corrections and leaves the offset and the button flag as they were |
| Correction.BackwardLandingIsOnForwardBoundary | src/Carousel/Carousel.tsx:126-136 | the organic backward correction lands on an offset that passes the forward test, and the suppression flag turns the scroll event the jump itself raises into a no-op |
| Correction.OrganicForwardLandingIsStable | src/Carousel/Carousel.tsx:116-125 | after an organic forward correction and the cooldown, a scroll event at the landing offset 1 changes nothing when the strip is wider than the clone region plus one pixel |
| Navigation.ScrollLeft | src/Carousel/Carousel.tsx:102-105 | "back" arms the button flag, changes nothing else, and aims one card pitch before the current offset |
| Navigation.ScrollRight | src/Carousel/Carousel.tsx:107-110 | "forward" arms the button flag, changes nothing else, and aims one card pitch after the current offset |
| Navigation.NavigationSymmetric | src/Carousel/Carousel.tsx:102-110 | both buttons leave the same state and aim at targets mirrored about the current offset, strictly before and after it |
| Navigation.InitialPosition | src/Carousel/Carousel.tsx:79-83 | once the strip has a width, the viewport is placed with the first clone centred, and only the offset changes; before that nothing changes |
| Navigation.ButtonForwardWrapKeepsDestination | src/Carousel/Carousel.tsx:116-120 | a forward press from the initial position that scrolls into the clone region animates to the press's own target moved back by one lap of real cards, and clears the button flag |
| Navigation.ButtonBackWrapKeepsDestination | src/Carousel/Carousel.tsx:126-130 | a back press from the centred second card that reaches the start animates to the press's own target moved on by one lap, and clears the button flag |
| Swipe.OnTouchStart | src/Carousel/Carousel.tsx:146-149 | touch start records the start coordinate and clears the end coordinate, whatever the touch state before |
| Swipe.OnTouchMove | src/Carousel/Carousel.tsx:151-153 | touch move records the latest coordinate as the end and keeps the start |
| Swipe.OnTouchEnd | src/Carousel/Carousel.tsx:155-172 | with a missing or 0 coordinate nothing changes and nothing fires; otherwise a distance above 50 goes forward, below -50 goes back, anything in between fires nothing, and both coordinates are cleared |
| Swipe.MovesKeepLast | src/Carousel/Carousel.tsx:151-153 | after a run of moves, only the last position is kept and the start is untouched |
| Swipe.GestureOutcome | src/Carousel/Carousel.tsx:146-172 | a whole gesture navigates as a reference classification of its start and last move says, whatever touch state came before; a gesture without moves never navigates |
| Swipe.DragFromScreenEdgeIsIgnored | src/Carousel/Carousel.tsx:156 | a 200-pixel drag that starts at x = 0 fires nothing and keeps its coordinates |
| CarouselMachine.Step | src/Carousel/Carousel.tsx:102-172 | only scroll events correct, and a correction leaves a pending timer; touch coordinates change only on touch events; the timer is started only by a correction and cleared only when it fires |
| CarouselMachine.StepKeepsLockConsistent | src/Carousel/Carousel.tsx:125-141 | every handler keeps "suppression flag set" equivalent to "cooldown timer pending" |
| CarouselMachine.RunKeepsLockConsistent | src/Carousel/Carousel.tsx:112-144 | over any sequence of events, the suppression flag is never set without a pending timer that will clear it |
| CarouselMachine.CooldownSuppressesCorrections | src/Carousel/Carousel.tsx:113-143 | until the timer fires, no event of any kind causes a correction, and the flag and the timer stay set |
| CarouselMachine.SecondCrossingNeedsCooldown | src/Carousel/Carousel.tsx:113-141 | a second boundary crossing before the timer fires is ignored; after it fires, the same crossing is corrected |
| CarouselMachine.LeftSwipeIsForwardButton | src/Carousel/Carousel.tsx:159-163 | a swipe of more than 50 pixels to the left does what the forward button does, once, and clears the touch |
| CarouselMachine.RightSwipeIsBackButton | src/Carousel/Carousel.tsx:160-168 | a swipe of more than 50 pixels to the right does what the back button does, once, and clears the touch |
| CarouselMachine.FiveCardExample | src/Carousel/Carousel.tsx:112-125 | five cards with three clones render eight; after initial placement, an organic scroll into the clone region is corrected once, to offset 1 |

## Left out

- Rendering, JSX, the `forwardRef`/`useImperativeHandle` wiring, class names and style modules (src/Carousel/Carousel.tsx:192-237): presentation only. The owner's `scrollLeft()`/`scrollRight()` are the `ButtonBack`/`ButtonForward` events.
- The `renderNavigation` and `scrollable` options: they only choose what is rendered and how it is styled.
- DOM measurement: widths, offsets and scroll positions are integer inputs. The fractional width from `getBoundingClientRect` is taken as an integer, JavaScript floating-point numbers are not modelled, and the browser's clamping of `scrollLeft` to the scrollable range is not modelled.
- The smooth scroll animation: only its target is recorded. The scroll events the animation raises are `Scrolled` events supplied by the environment.
- Real timer durations: the 150 ms timeout is the `CooldownElapsed` event. A timer still pending when the component unmounts is outside the model.
- uuid generation: a supply of fresh keys is a parameter. Freshness (pairwise distinct, disjoint from the real keys) is a precondition of `Clones.RenderedKeysDistinct`.
- Effect scheduling and re-renders: the transient clone count of 0 before the first effect runs, geometry computed from a stale clone count, and the source re-declaring its `let` flags on every render are not modelled. The flags are persistent instance state. `Clones.RenderChildren` takes the clone count as a parameter, so a count of 0 is covered there.
- The `Array.isArray(children)` test: the cards are always a sequence in the model.
- Unmounted-node corner cases: the gap is NaN when there is no first node, which happens only before mount. Reading `children[0].clientWidth` throws when the mounted strip has no card. Neither can reach a handler in the model.
- `src/App.tsx` and `src/Card.tsx`: demo shell and card presentation, with no logic.
- Clones.RenderChildren: asks for at least `illusionCount` fresh keys even when no clone is made. The source's key generator never runs out, so this demands nothing the source does not supply.
