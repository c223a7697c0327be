/** The touch handlers: a horizontal swipe of more than 50 pixels navigates one card. */
module Swipe {
  import opened Base

  /** The swipe threshold in pixels; a swipe must exceed it strictly. */
  const MinSwipeDistance: int := 50

  /** The x coordinates where the current touch started and was last seen. */
  datatype TouchState = TouchState(start: Option<int>, end: Option<int>)

  datatype Direction = Forward | Backward

  /** What the end of a touch produces: the next touch state and the navigation it triggers. */
  datatype SwipeOutcome = SwipeOutcome(touch: TouchState, swipe: Option<Direction>)

  /** A coordinate passes the handler's truthiness test: it is present and not 0. */
  predicate Truthy(x: Option<int>) {
    x.Some? && x.value != 0
  }

  /** Touch start: forget the last position and record where the touch began. */
  function OnTouchStart(t: TouchState, x: Option<int>): (r: TouchState)
    ensures r.start == x && r.end == None
  {
    TouchState(x, None)
  }

  /** Touch move: record the latest position. */
  function OnTouchMove(t: TouchState, x: Option<int>): (r: TouchState)
    ensures r.start == t.start && r.end == x
  {
    t.(end := x)
  }

  /** Touch end. If either coordinate is missing or 0 the handler returns early and
      nothing changes. Otherwise a drag to the left by more than the threshold goes
      forward, one to the right goes back, anything shorter is a tap, and both
      coordinates are cleared. */
  function OnTouchEnd(t: TouchState): (r: SwipeOutcome)
    ensures !(Truthy(t.start) && Truthy(t.end)) ==> r == SwipeOutcome(t, None)
    ensures Truthy(t.start) && Truthy(t.end) ==>
      && r.touch == TouchState(None, None)
      && (r.swipe == Some(Forward) <==> t.start.value - t.end.value > MinSwipeDistance)
      && (r.swipe == Some(Backward) <==> t.start.value - t.end.value < -MinSwipeDistance)
      && (r.swipe == None <==> -MinSwipeDistance <= t.start.value - t.end.value <= MinSwipeDistance)
  {
    if !Truthy(t.start) || !Truthy(t.end) then
      SwipeOutcome(t, None)
    else
      var distance := t.start.value - t.end.value;
      var isLeftSwipe := distance > MinSwipeDistance;
      var isRightSwipe := distance < -MinSwipeDistance;
      var swipe := if isLeftSwipe then Some(Forward) else if isRightSwipe then Some(Backward) else None;
      SwipeOutcome(TouchState(None, None), swipe)
  }

  /** The touch state after a run of move events. */
  function Moves(t: TouchState, xs: seq<Option<int>>): TouchState
    decreases |xs|
  {
    if |xs| == 0 then t else Moves(OnTouchMove(t, xs[0]), xs[1..])
  }

  /** Reference classification of a whole gesture from where it started and where it
      was last seen: a navigation needs both coordinates truthy and a distance whose
      size exceeds the threshold, and its direction is the sign of that distance. */
  function Classify(start: Option<int>, last: Option<int>): Option<Direction> {
    if !Truthy(start) || !Truthy(last) then None
    else if start.value - last.value > MinSwipeDistance then Some(Forward)
    else if last.value - start.value > MinSwipeDistance then Some(Backward)
    else None
  }

  /** After moves, the last position is the one of the last move; the start is kept. */
  lemma {:induction false} MovesKeepLast(t: TouchState, xs: seq<Option<int>>)
    requires |xs| > 0
    ensures Moves(t, xs) == TouchState(t.start, xs[|xs| - 1])
    decreases |xs|
  {
    if |xs| > 1 {
      MovesKeepLast(OnTouchMove(t, xs[0]), xs[1..]);
    }
  }

  /** A whole gesture (start, any moves, end) navigates as the reference classification
      of its start and its last move says, whatever touch state came before it: a stale
      coordinate from an earlier gesture cannot leak in. A gesture without moves never
      navigates. */
  lemma GestureOutcome(before: TouchState, x: Option<int>, xs: seq<Option<int>>)
    ensures var t := Moves(OnTouchStart(before, x), xs);
            OnTouchEnd(t).swipe == (if |xs| == 0 then None else Classify(x, xs[|xs| - 1]))
  {
    if |xs| > 0 {
      MovesKeepLast(OnTouchStart(before, x), xs);
    }
  }

  /** The truthiness test treats a coordinate of 0 as missing: a long drag that starts at
      the left edge of the screen does not navigate, and its coordinates are kept. */
  lemma DragFromScreenEdgeIsIgnored()
    ensures var t := OnTouchMove(OnTouchStart(TouchState(None, None), Some(0)), Some(200));
            OnTouchEnd(t) == SwipeOutcome(TouchState(Some(0), Some(200)), None)
  {
  }
}
