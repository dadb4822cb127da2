/** Backdrop: the dimming layer and its tap-outside gesture. */
module Backdrop {
  import opened Common
  import Provider

  /** A pointer position reported by the tap gesture. */
  datatype Point = Point(x: real, y: real)

  /** The squared length of the drag from `start` to `end`. */
  function DragSquared(start: Point, end: Point): real
  {
    (end.x - start.x) * (end.x - start.x) + (end.y - start.y) * (end.y - start.y)
  }

  /**
   * `Math.hypot(dx, dy) < 10`, compared without the square root: a drag
   * closes only when it is shorter than 10 points.
   */
  function ShouldClose(start: Point, end: Point): (close: bool)
    ensures close <==> DragSquared(start, end) < 100.0
  {
    DragSquared(start, end) < 100.0
  }

  /** For the true drag length `distance`, the squared test is the source's `distance < 10`. */
  lemma ShouldCloseMatchesDistance(start: Point, end: Point, distance: real)
    requires distance >= 0.0 && distance * distance == DragSquared(start, end)
    ensures ShouldClose(start, end) <==> distance < 10.0
  {
    if distance >= 10.0 {
      assert distance * distance >= 10.0 * distance >= 100.0;
    } else {
      assert distance * distance <= 10.0 * distance < 100.0;
    }
  }

  /** A drag of exactly 10 points does not close. */
  lemma DragOfTenKeepsOpen(start: Point)
    ensures !ShouldClose(start, Point(start.x + 6.0, start.y + 8.0))
    ensures !ShouldClose(start, Point(start.x + 10.0, start.y))
  {
  }

  /** `backDropOpacity || 0.6`: an absent or zero opacity becomes 0.6. */
  function OpacityOrDefault(backDropOpacity: Option<real>): (opacity: real)
    ensures opacity != 0.0
    ensures backDropOpacity.Some? && backDropOpacity.value != 0.0 ==> opacity == backDropOpacity.value
    ensures backDropOpacity == None || backDropOpacity == Some(0.0) ==> opacity == 0.6
  {
    if backDropOpacity.Some? && backDropOpacity.value != 0.0 then backDropOpacity.value else 0.6
  }

  datatype BackdropStyle = BackdropStyle(top: Anim, opacity: Anim)

  /**
   * animatedContainerStyle: while active the backdrop covers the screen from
   * the top and fades in to its opacity; otherwise it fades out and, once the
   * transform duration has passed, jumps below the screen.
   */
  function AnimatedContainerStyle(k: Constants, state: MenuState, backDropOpacity: Option<real>): (s: BackdropStyle)
    ensures state == Active ==> s.top == Assign(0.0)
    ensures state != Active ==> s.top == Delay(k.transformDuration, Timing(k.windowHeight, 0.0, false))
    ensures s.opacity.Timing? && s.opacity.duration == k.transformDuration
    ensures Settles(s.opacity) != 0.0 <==> state == Active
    ensures state == Active ==> Settles(s.opacity) == OpacityOrDefault(backDropOpacity)
  {
    BackdropStyle(
      if state == Active then Assign(0.0)
      else Delay(k.transformDuration, Timing(k.windowHeight, 0.0, false)),
      Timing(if state == Active then OpacityOrDefault(backDropOpacity) else 0.0, k.transformDuration, false))
  }

  /** The tap gesture on the backdrop, with the gesture's own context. */
  class TapGesture {
    var startPosition: Option<Point>
    const internal: Provider.InternalState

    constructor (internal: Provider.InternalState)
      ensures this.internal == internal && startPosition == None
    {
      this.internal := internal;
      startPosition := None;
    }

    /** onStart: remember where the touch began; no shared value is written. */
    method OnStart(event: Point)
      modifies this`startPosition
      ensures startPosition == Some(event)
    {
      startPosition := Some(event);
    }

    /** onCancel: a cancelled gesture always dismisses. */
    method OnCancel()
      modifies internal`state
      ensures internal.state == End
    {
      internal.state := End;
    }

    /** onEnd: a short tap dismisses an active menu; anything else leaves the state alone. */
    method OnEnd(event: Point)
      requires startPosition.Some?
      modifies internal`state
      ensures internal.state ==
        if ShouldClose(startPosition.value, event) && old(internal.state) == Active then End
        else old(internal.state)
      ensures internal.state == End || internal.state == old(internal.state)
    {
      var shouldClose := ShouldClose(startPosition.value, event);
      var isStateActive := internal.state == Active;
      if shouldClose && isStateActive {
        internal.state := End;
      }
    }
  }
}
