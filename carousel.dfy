/**
 * The project carousel: two arrow buttons scroll the track by a fixed step,
 * and click-and-drag scrolls it by 1.5 times the pointer's displacement.
 *
 * Coordinates and offsets are reals (the source uses JavaScript numbers;
 * floating-point rounding is not modelled). `scrollBy` is taken to land
 * exactly, without the smooth animation, and `scrollLeft` is not clamped to
 * the track's scroll range.
 */
module ProjectCarousel {

  /** Distance one arrow click scrolls the track. */
  const ArrowStep: real := 680.0
  /** Scroll distance per unit of pointer movement while dragging. */
  const DragGain: real := 1.5

  /** The user inputs the carousel reacts to; `pageX` is the pointer's page coordinate. */
  datatype Event =
    | ClickLeft
    | ClickRight
    | MouseDown(pageX: real)
    | MouseUp
    | MouseLeave
    | MouseMove(pageX: real)

  /** The track's scroll offset and position, and the drag variables of the script. */
  datatype DragState = DragState(
    scrollLeft: real,
    offsetLeft: real,
    isDragging: bool,
    dragStartX: real,
    dragScrollLeft: real)

  /** Where a drag that started at `startX` over offset `startScroll` puts the track when the pointer is at `x`. */
  function DragTarget(startScroll: real, startX: real, x: real): real
  {
    startScroll - (x - startX) * DragGain
  }

  /** One event handler, as a function of the state before it. */
  function Step(s: DragState, e: Event): DragState
  {
    match e
    case ClickLeft => s.(scrollLeft := s.scrollLeft - ArrowStep)
    case ClickRight => s.(scrollLeft := s.scrollLeft + ArrowStep)
    case MouseDown(pageX) =>
      s.(isDragging := true, dragStartX := pageX - s.offsetLeft, dragScrollLeft := s.scrollLeft)
    case MouseUp => s.(isDragging := false)
    case MouseLeave => s.(isDragging := false)
    case MouseMove(pageX) =>
      if !s.isDragging then s
      else s.(scrollLeft := DragTarget(s.dragScrollLeft, s.dragStartX, pageX - s.offsetLeft))
  }

  function Run(s: DragState, events: seq<Event>): DragState
    decreases |events|
  {
    if events == [] then s else Run(Step(s, events[0]), events[1..])
  }

  /** The pointer moving through the page coordinates `xs`, in order. */
  function Moves(xs: seq<real>): (es: seq<Event>)
    ensures |es| == |xs|
    ensures forall i | 0 <= i < |xs| :: es[i] == MouseMove(xs[i])
  {
    if xs == [] then [] else [MouseMove(xs[0])] + Moves(xs[1..])
  }

  /** The two arrows undo each other, in either order. */
  lemma ArrowsCancel(s: DragState)
    ensures Step(Step(s, ClickLeft), ClickRight) == s
    ensures Step(Step(s, ClickRight), ClickLeft) == s
  {
  }

  /** An arrow click moves the track by exactly one step and touches nothing else. */
  lemma ArrowMovesByStep(s: DragState)
    ensures Step(s, ClickLeft).scrollLeft == s.scrollLeft - 680.0
    ensures Step(s, ClickRight).scrollLeft == s.scrollLeft + 680.0
    ensures Step(s, ClickLeft).(scrollLeft := s.scrollLeft) == s
    ensures Step(s, ClickRight).(scrollLeft := s.scrollLeft) == s
  {
  }

  /** Releasing or leaving only ends the drag. */
  lemma ReleaseOnlyStopsDrag(s: DragState)
    ensures Step(s, MouseUp) == Step(s, MouseLeave) == s.(isDragging := false)
  {
  }

  /** Moving without a drag in progress changes nothing, however far the pointer goes. */
  lemma {:induction false} IdleMovesNoEffect(s: DragState, xs: seq<real>)
    requires !s.isDragging
    ensures Run(s, Moves(xs)) == s
    decreases |xs|
  {
    if xs != [] {
      assert Moves(xs)[1..] == Moves(xs[1..]);
      IdleMovesNoEffect(s, xs[1..]);
    }
  }

  /**
   * During a drag, every move recomputes the offset from the drag's start:
   * after any non-empty run of moves the track sits where the last pointer
   * position alone puts it, and the drag variables are unchanged.
   */
  lemma {:induction false} DragFollowsLastMove(s: DragState, xs: seq<real>)
    requires s.isDragging && xs != []
    ensures Run(s, Moves(xs)) ==
      s.(scrollLeft := DragTarget(s.dragScrollLeft, s.dragStartX, xs[|xs| - 1] - s.offsetLeft))
    decreases |xs|
  {
    assert Moves(xs)[1..] == Moves(xs[1..]);
    if |xs| > 1 {
      DragFollowsLastMove(Step(s, MouseMove(xs[0])), xs[1..]);
    } else {
      assert Moves(xs[1..]) == [];
    }
  }

  /**
   * A whole gesture: press at `x0`, move through `xs`. The track ends at its
   * offset at the press minus 1.5 times the pointer's net displacement, and
   * the pressed offset comes back exactly when the pointer returns to `x0`.
   */
  lemma Gesture(s: DragState, x0: real, xs: seq<real>)
    requires xs != []
    ensures Run(s, [MouseDown(x0)] + Moves(xs)).scrollLeft ==
      s.scrollLeft - (xs[|xs| - 1] - x0) * 1.5
    ensures xs[|xs| - 1] == x0 ==> Run(s, [MouseDown(x0)] + Moves(xs)).scrollLeft == s.scrollLeft
  {
    var events := [MouseDown(x0)] + Moves(xs);
    assert events[1..] == Moves(xs);
    DragFollowsLastMove(Step(s, MouseDown(x0)), xs);
  }

  /** After release, further moves never scroll the track. */
  lemma ReleasedMovesNoEffect(s: DragState, release: Event, xs: seq<real>)
    requires release == MouseUp || release == MouseLeave
    ensures Run(s, [release] + Moves(xs)) == s.(isDragging := false)
  {
    assert ([release] + Moves(xs))[1..] == Moves(xs);
    IdleMovesNoEffect(Step(s, release), xs);
  }

  /** The track element and the three module-level drag variables. */
  class Carousel {
    var scrollLeft: real
    var offsetLeft: real
    var isDragging: bool
    var dragStartX: real
    var dragScrollLeft: real

    constructor (scrollLeft0: real, offsetLeft0: real)
      ensures scrollLeft == scrollLeft0 && offsetLeft == offsetLeft0
      ensures !isDragging && dragStartX == 0.0 && dragScrollLeft == 0.0
    {
      scrollLeft := scrollLeft0;
      offsetLeft := offsetLeft0;
      isDragging := false;
      dragStartX := 0.0;
      dragScrollLeft := 0.0;
    }

    function State(): DragState
      reads this
    {
      DragState(scrollLeft, offsetLeft, isDragging, dragStartX, dragScrollLeft)
    }

    /** The left arrow: `track.scrollBy({left: -680})`. */
    method OnLeftClick()
      modifies this`scrollLeft
      ensures scrollLeft == old(scrollLeft) - ArrowStep
      ensures State() == Step(old(State()), ClickLeft)
    {
      scrollLeft := scrollLeft - ArrowStep;
    }

    /** The right arrow: `track.scrollBy({left: 680})`. */
    method OnRightClick()
      modifies this`scrollLeft
      ensures scrollLeft == old(scrollLeft) + ArrowStep
      ensures State() == Step(old(State()), ClickRight)
    {
      scrollLeft := scrollLeft + ArrowStep;
    }

    /** Starts a drag: remembers the pointer's x inside the track and the current offset. */
    method OnMouseDown(pageX: real)
      modifies this`isDragging, this`dragStartX, this`dragScrollLeft
      ensures isDragging
      ensures dragStartX == pageX - offsetLeft && dragScrollLeft == scrollLeft
      ensures State() == Step(old(State()), MouseDown(pageX))
    {
      isDragging := true;
      dragStartX := pageX - offsetLeft;
      dragScrollLeft := scrollLeft;
    }

    method OnMouseLeave()
      modifies this`isDragging
      ensures !isDragging
      ensures State() == Step(old(State()), MouseLeave)
    {
      isDragging := false;
    }

    method OnMouseUp()
      modifies this`isDragging
      ensures !isDragging
      ensures State() == Step(old(State()), MouseUp)
    {
      isDragging := false;
    }

    /** While dragging, puts the track 1.5 times the pointer's displacement away from where the drag began. */
    method OnMouseMove(pageX: real)
      modifies this`scrollLeft
      ensures !isDragging ==> scrollLeft == old(scrollLeft)
      ensures isDragging ==> scrollLeft == dragScrollLeft - ((pageX - offsetLeft) - dragStartX) * 1.5
      ensures State() == Step(old(State()), MouseMove(pageX))
    {
      if !isDragging {
        return;
      }
      var x := pageX - offsetLeft;
      var dist := (x - dragStartX) * DragGain;
      scrollLeft := dragScrollLeft - dist;
    }
  }
}
