/**
 * Drag rotation of the panorama view: the module-level state `viewRotationX`,
 * `viewRotationY`, `lastMouseX`, `lastMouseY` and `isDragging`, driven by the
 * canvas's mousedown, mousemove and mouseup handlers.
 *
 * `Step` is the specification of one event on a value of the state; the class
 * `ViewControl` holds the same state in mutable fields and its three methods
 * are proved to perform `Step`. Lemmas about `Run` (a sequence of events) then
 * hold for any sequence of handler calls.
 */
module DragRotation {

  datatype Option<T> = None | Some(value: T)

  /** Half of pi: the exact value of the double the page computes for it. */
  const HALF_PI: real := 1.5707963267948965579989817342720925807952880859375

  /** Radians of rotation per pixel of pointer movement. */
  const SENSITIVITY: real := 0.01

  function Max(a: real, b: real): (r: real)
    ensures r >= a && r >= b && (r == a || r == b)
  {
    if a >= b then a else b
  }

  function Min(a: real, b: real): (r: real)
    ensures r <= a && r <= b && (r == a || r == b)
  {
    if a <= b then a else b
  }

  /**
   * The vertical clamp of the mousemove handler, a max of a min: the nearest
   * point of [-HALF_PI, HALF_PI] to v.
   */
  function Clamp(v: real): (r: real)
    ensures -HALF_PI <= r <= HALF_PI
    ensures -HALF_PI <= v <= HALF_PI ==> r == v
    ensures v > HALF_PI ==> r == HALF_PI
    ensures v < -HALF_PI ==> r == -HALF_PI
  {
    Max(-HALF_PI, Min(HALF_PI, v))
  }

  /** Clamping twice is clamping once. */
  lemma ClampIdempotent(v: real)
    ensures Clamp(Clamp(v)) == Clamp(v)
  {
  }

  /** An anchor read as a number: JavaScript turns null into 0 in a subtraction. */
  function OrZero(n: Option<real>): real
  {
    match n
    case Some(v) => v
    case None => 0.0
  }

  /** Value of the five module-level variables. */
  datatype ViewState = ViewState(
    viewRotationX: real,
    viewRotationY: real,
    lastMouseX: Option<real>,
    lastMouseY: Option<real>,
    isDragging: bool)

  /** Page load: both angles 0, no anchor yet (null), not dragging. */
  function Initial(): ViewState
  {
    ViewState(0.0, 0.0, None, None, false)
  }

  datatype MouseEvent =
    | MouseDown(clientX: real, clientY: real)
    | MouseMove(clientX: real, clientY: real)
    | MouseUp

  /** What one handler does to the state. */
  function Step(s: ViewState, e: MouseEvent): ViewState
  {
    match e
    case MouseDown(cx, cy) =>
      s.(isDragging := true, lastMouseX := Some(cx), lastMouseY := Some(cy))
    case MouseMove(cx, cy) =>
      if !s.isDragging then s
      else
        var deltaX := cx - OrZero(s.lastMouseX);
        var deltaY := cy - OrZero(s.lastMouseY);
        s.(viewRotationX := s.viewRotationX + deltaX * SENSITIVITY,
           viewRotationY := Clamp(s.viewRotationY + deltaY * SENSITIVITY),
           lastMouseX := Some(cx), lastMouseY := Some(cy))
    case MouseUp =>
      s.(isDragging := false)
  }

  /** The state after the handlers for `events` have run in order. */
  function Run(s: ViewState, events: seq<MouseEvent>): ViewState
    decreases |events|
  {
    if events == [] then s else Run(Step(s, events[0]), events[1..])
  }

  predicate PitchInRange(s: ViewState)
  {
    -HALF_PI <= s.viewRotationY <= HALF_PI
  }

  /** The view state, held in the five variables the handlers update. */
  class ViewControl {
    var viewRotationX: real
    var viewRotationY: real
    var lastMouseX: Option<real>
    var lastMouseY: Option<real>
    var isDragging: bool

    function State(): ViewState
      reads this
    {
      ViewState(viewRotationX, viewRotationY, lastMouseX, lastMouseY, isDragging)
    }

    /** The vertical angle never leaves [-HALF_PI, HALF_PI]. */
    ghost predicate Valid()
      reads this
    {
      PitchInRange(State())
    }

    constructor ()
      ensures Valid()
      ensures State() == Initial()
    {
      viewRotationX := 0.0;
      viewRotationY := 0.0;
      lastMouseX := None;
      lastMouseY := None;
      isDragging := false;
    }

    /** mousedown: arm dragging and anchor the drag at the pointer. */
    method MouseDown(clientX: real, clientY: real)
      requires Valid()
      modifies this
      ensures Valid()
      ensures State() == Step(old(State()), MouseEvent.MouseDown(clientX, clientY))
      ensures isDragging && lastMouseX == Some(clientX) && lastMouseY == Some(clientY)
      ensures viewRotationX == old(viewRotationX) && viewRotationY == old(viewRotationY)
    {
      isDragging := true;
      lastMouseX := Some(clientX);
      lastMouseY := Some(clientY);
    }

    /**
     * mousemove: while dragging, turn by SENSITIVITY per pixel moved since the
     * anchor, clamp the vertical angle and move the anchor; otherwise nothing.
     */
    method MouseMove(clientX: real, clientY: real)
      requires Valid()
      modifies this
      ensures Valid()
      ensures State() == Step(old(State()), MouseEvent.MouseMove(clientX, clientY))
      ensures !old(isDragging) ==> State() == old(State())
      ensures old(isDragging) ==>
                viewRotationX == old(viewRotationX) + (clientX - OrZero(old(lastMouseX))) * SENSITIVITY &&
                viewRotationY == Clamp(old(viewRotationY) + (clientY - OrZero(old(lastMouseY))) * SENSITIVITY) &&
                lastMouseX == Some(clientX) && lastMouseY == Some(clientY) && isDragging
    {
      if !isDragging {
        return;
      }
      var deltaX := clientX - OrZero(lastMouseX);
      var deltaY := clientY - OrZero(lastMouseY);
      viewRotationX := viewRotationX + deltaX * SENSITIVITY;
      viewRotationY := viewRotationY + deltaY * SENSITIVITY;
      viewRotationY := Max(-HALF_PI, Min(HALF_PI, viewRotationY));
      lastMouseX := Some(clientX);
      lastMouseY := Some(clientY);
    }

    /** mouseup: disarm dragging; angles and anchor stay. */
    method MouseUp()
      requires Valid()
      modifies this
      ensures Valid()
      ensures State() == Step(old(State()), MouseEvent.MouseUp)
      ensures !isDragging
      ensures viewRotationX == old(viewRotationX) && viewRotationY == old(viewRotationY)
      ensures lastMouseX == old(lastMouseX) && lastMouseY == old(lastMouseY)
    {
      isDragging := false;
    }
  }

  // ---------------------------------------------------------------------------
  // Properties of the handlers
  // ---------------------------------------------------------------------------

  /** mousemove without a pressed button changes nothing. */
  lemma MoveWhileReleased(s: ViewState, cx: real, cy: real)
    requires !s.isDragging
    ensures Step(s, MouseMove(cx, cy)) == s
  {
  }

  /** mouseup only clears isDragging, and a second mouseup changes nothing more. */
  lemma MouseUpIdempotent(s: ViewState)
    ensures var t := Step(s, MouseUp);
            !t.isDragging &&
            t.viewRotationX == s.viewRotationX && t.viewRotationY == s.viewRotationY &&
            t.lastMouseX == s.lastMouseX && t.lastMouseY == s.lastMouseY &&
            Step(t, MouseUp) == t
  {
  }

  /** mousedown arms dragging at the pointer and leaves both angles alone. */
  lemma MouseDownAnchors(s: ViewState, cx: real, cy: real)
    ensures var t := Step(s, MouseDown(cx, cy));
            t.isDragging && t.lastMouseX == Some(cx) && t.lastMouseY == Some(cy) &&
            t.viewRotationX == s.viewRotationX && t.viewRotationY == s.viewRotationY
  {
  }

  /** No event sequence, however large its movements, takes the vertical angle out of range. */
  lemma {:induction false} RunKeepsPitchInRange(s: ViewState, events: seq<MouseEvent>)
    requires PitchInRange(s)
    ensures PitchInRange(Run(s, events))
    decreases |events|
  {
    if events != [] {
      RunKeepsPitchInRange(Step(s, events[0]), events[1..]);
    }
  }

  /** From the initial state, -HALF_PI <= viewRotationY <= HALF_PI after any events. */
  lemma PitchAlwaysInRange(events: seq<MouseEvent>)
    ensures -HALF_PI <= Run(Initial(), events).viewRotationY <= HALF_PI
  {
    RunKeepsPitchInRange(Initial(), events);
  }

  predicate AllMoves(events: seq<MouseEvent>)
  {
    forall i :: 0 <= i < |events| ==> events[i].MouseMove?
  }

  /** The x coordinate of the last move, or `anchor` when there are none. */
  function FinalX(moves: seq<MouseEvent>, anchor: real): real
    requires AllMoves(moves)
  {
    if moves == [] then anchor else moves[|moves| - 1].clientX
  }

  /**
   * While dragging, a run of moves turns the horizontal angle by SENSITIVITY
   * times the total x displacement from the anchor to the last pointer position.
   */
  lemma {:induction false} DragTurnsByDisplacement(s: ViewState, moves: seq<MouseEvent>)
    requires s.isDragging && AllMoves(moves)
    ensures var t := Run(s, moves);
            t.isDragging &&
            t.viewRotationX == s.viewRotationX + (FinalX(moves, OrZero(s.lastMouseX)) - OrZero(s.lastMouseX)) * SENSITIVITY
    decreases |moves|
  {
    if moves != [] {
      var t := Step(s, moves[0]);
      var rest := moves[1..];
      assert AllMoves(rest);
      DragTurnsByDisplacement(t, rest);
      assert FinalX(moves, OrZero(s.lastMouseX)) == FinalX(rest, moves[0].clientX);
    }
  }

  /**
   * A drag that starts with mousedown at x0 and continues with moves ends with
   * viewRotationX grown by SENSITIVITY times (last x - x0).
   */
  lemma DragFromMouseDown(s: ViewState, x0: real, y0: real, moves: seq<MouseEvent>)
    requires AllMoves(moves)
    ensures Run(s, [MouseDown(x0, y0)] + moves).viewRotationX ==
              s.viewRotationX + (FinalX(moves, x0) - x0) * SENSITIVITY
  {
    var events := [MouseDown(x0, y0)] + moves;
    assert events[1..] == moves;
    DragTurnsByDisplacement(Step(s, MouseDown(x0, y0)), moves);
  }

  /** Press at (100, 100) and move to (200, 100): the view turns by 1.0 rad horizontally only. */
  lemma DragScenario()
    ensures Run(Initial(), [MouseDown(100.0, 100.0), MouseMove(200.0, 100.0)]) ==
              ViewState(1.0, 0.0, Some(200.0), Some(100.0), true)
  {
    var events := [MouseDown(100.0, 100.0), MouseMove(200.0, 100.0)];
    assert events[1..][1..] == [];
  }
}
