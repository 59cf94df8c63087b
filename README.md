# Portfolio page behaviours, modelled in Dafny

The portfolio page's script wires six small behaviours to browser events.
This project models the five that have something definite to prove, with
the page reduced to plain fields, sets and maps:

- **Pixel cursor** (`cursor.dfy`, module `PixelCursor`): `drawCursor` clears
  the cursor canvas and, for each non-zero cell of the fixed 16 x 16 bitmap,
  sets `fillStyle` and fills a 2 x 2 square. The canvas is a class whose
  `drawn` field is the list of `fillRect` calls since the last `clearRect`.
  The nested loop is proved against `Picture(grid, clicking)`. Lemmas about
  `Picture` show that it paints exactly one square per non-zero cell, at
  `(col * 2, row * 2)`, with the colour the code picks. It paints nothing at
  zero cells and draws in row-major order, and the bitmap fits 32 x 32.
- **Scroll reveal** (`reveal.dfy`, module `ScrollReveal`): the observer's
  watched set and the set of elements carrying `visible`. The callback
  reveals and unobserves every intersecting target. Trace lemmas show that,
  as long as the host reports only watched targets, an element is marked in
  at most one callback and is never reported again.
- **Project carousel** (`carousel.dfy`, module `ProjectCarousel`): the
  track's `scrollLeft` and `offsetLeft` and the three drag variables, as
  reals. The arrow buttons shift the offset by -680 and +680. Mouse-down
  starts a drag, mouse-up and mouse-leave end it, and mouse-move sets
  `scrollLeft := dragScrollLeft - (x - dragStartX) * 1.5` while dragging. A
  pure `Step` function over an `Event` datatype mirrors the handlers, so
  whole gestures can be stated as lemmas.
- **Contact form** (`contact_form.dfy`, module `ContactForm`) and **navbar
  shadow** (`navbar.dfy`, module `NavbarShadow`): submit shows the sent
  state and schedules a reset. The reset timer firing is an explicit step.
  The shadow is a pure choice against the threshold 10.
- **Skill bars** (`skill_bars.dfy`, module `SkillBars`): widths are a map
  from bar to string. The load pass and the item observer both write
  `data-progress + '%'`. A run of passes in any order is proved to be a
  single write of every bar any pass touched. So any run that includes the
  load pass settles on the load pass's widths.

Where the source's comments and the code disagree, the model follows the
code. `drawCursor`'s comments call the value-1 colours "black / clicked" and
the value-2 colour "white outline". In fact value 1 is painted `#c8f03c`
(or `#555` while pressed), and every other non-zero value is painted
`rgba(255,255,255,0.6)`. The reset callback calls `form.reset()`, which
restores each field's default value rather than emptying it, so the model
restores a `defaults` list. Timers are never cancelled, so after two quick
submits the first timer restores the label soon after the second submit.
`ContactForm.RunSummary` states this in event terms: the button is restored
right after any timer fires.

JavaScript's `getAttribute` returns `null` for a missing `data-progress`,
and `null + '%'` is the text `"null%"`. The model records the string the
script assigns to `style.width`, which is that text for a bar without the
attribute; what the browser then keeps is not modelled (see below).

## Model

| member | source | states |
|---|---|---|
| PixelCursor.CursorCanvas.DrawCursor | docs/portfolio.js:31-43 | after the call the canvas holds exactly `Picture(CursorMap, clicking)`, whatever it held before (the canvas is cleared first), and `fillStyle` is the colour of the last square |
| PixelCursor.CursorCanvas.DrawBitmap | docs/portfolio.js:32-42 | the cleared-then-nested-loop renderer paints exactly `Picture(grid, clicking)`, row by row |
| PixelCursor.CursorCanvas.DrawRow | docs/portfolio.js:34-41 | the inner loop appends the squares of the row's non-zero cells, left to right, and nothing for zero cells |
| PixelCursor.CursorCanvas.ClearRect | docs/portfolio.js:32 | clearing forgets every square drawn and keeps `fillStyle` |
| PixelCursor.CursorCanvas.FillRect | docs/portfolio.js:40 | a fill appends one square with the current `fillStyle` |
| PixelCursor.OnPointerButton | docs/portfolio.js:45-54 | page load and mouse-up draw the resting cursor and mouse-down draws the pressed one |
| PixelCursor.PictureSound | docs/portfolio.js:33-40 | every painted square is the 2 x 2 square at `(col * 2, row * 2)` of a non-zero cell inside the grid, with that cell's colour |
| PixelCursor.PictureComplete | docs/portfolio.js:33-40 | every non-zero cell gets its 2 x 2 square at `(col * 2, row * 2)` |
| PixelCursor.TransparentCellsUnpainted | docs/portfolio.js:36 | no square is painted at the position of a cell equal to 0 |
| PixelCursor.PictureColours | docs/portfolio.js:37-39 | cells equal to 1 are `#555` when clicking and `#c8f03c` otherwise, and every other non-zero cell is `rgba(255,255,255,0.6)` whatever the flag |
| PixelCursor.PictureCount | docs/portfolio.js:33-40 | the number of squares equals the number of non-zero cells |
| PixelCursor.PictureRowMajor | docs/portfolio.js:33-34 | squares are painted in row-major order, so no square is painted twice |
| PixelCursor.PictureWithinBounds | docs/portfolio.js:7 | a grid of at most `height` rows of at most `width` cells paints only inside `2*width` x `2*height` |
| PixelCursor.CursorWithinCanvas | docs/portfolio.js:10-27 | the 16 x 16 cursor bitmap paints only inside 32 x 32 |
| PixelCursor.PictureShapeIndependentOfFlag | docs/portfolio.js:37-40 | the pressed flag changes colours only: both renders paint the same squares in the same order |
| ScrollReveal.Reveal.ObserveAll | docs/portfolio.js:81 | registration adds every `.reveal` element to the watched set and reveals nothing |
| ScrollReveal.Reveal.OnIntersect | docs/portfolio.js:70-77 | the callback adds every intersecting target to `visible` and removes it from the watched set, and does nothing for the other entries |
| ScrollReveal.NonIntersectingIsNoOp | docs/portfolio.js:72 | a batch of non-intersecting entries changes nothing |
| ScrollReveal.IntersectingEntryReveals | docs/portfolio.js:72-74 | an intersecting entry's target ends up visible and unobserved |
| ScrollReveal.CallbackKeepsConsistent | docs/portfolio.js:73-74 | no element is ever both watched and visible |
| ScrollReveal.RunMonotone | docs/portfolio.js:71-76 | over any run, revealed elements stay revealed and the watched set only shrinks |
| ScrollReveal.NeverRetriggers | docs/portfolio.js:74 | once an element is visible, no later batch the host delivers holds an entry for it |
| ScrollReveal.MarkedAtMostOnce | docs/portfolio.js:71-76 | over any run the host can deliver, an element is marked visible in at most one callback, and never if it was already visible |
| ProjectCarousel.Carousel.OnLeftClick | docs/portfolio.js:94-96 | the left arrow lowers `scrollLeft` by exactly 680 and changes nothing else |
| ProjectCarousel.Carousel.OnRightClick | docs/portfolio.js:98-100 | the right arrow raises `scrollLeft` by exactly 680 and changes nothing else |
| ProjectCarousel.Carousel.OnMouseDown | docs/portfolio.js:119-123 | mouse-down sets `isDragging`, `dragStartX := pageX - offsetLeft` and `dragScrollLeft := scrollLeft` |
| ProjectCarousel.Carousel.OnMouseLeave | docs/portfolio.js:125 | mouse-leave clears `isDragging` and touches nothing else |
| ProjectCarousel.Carousel.OnMouseUp | docs/portfolio.js:126 | mouse-up clears `isDragging` and touches nothing else |
| ProjectCarousel.Carousel.OnMouseMove | docs/portfolio.js:128-134 | without a drag nothing changes; during one `scrollLeft := dragScrollLeft - (x - dragStartX) * 1.5` and the drag variables stay |
| ProjectCarousel.ArrowsCancel | docs/portfolio.js:94-100 | a left click and a right click undo each other in either order |
| ProjectCarousel.ArrowMovesByStep | docs/portfolio.js:94-100 | an arrow click moves the offset by exactly -680 or +680 and changes nothing else |
| ProjectCarousel.ReleaseOnlyStopsDrag | docs/portfolio.js:125-126 | mouse-up and mouse-leave have the same effect: the drag ends |
| ProjectCarousel.IdleMovesNoEffect | docs/portfolio.js:128-129 | with no drag in progress, any run of moves leaves the whole state unchanged |
| ProjectCarousel.DragFollowsLastMove | docs/portfolio.js:128-134 | during a drag, after any run of moves the offset is set by the last pointer position alone |
| ProjectCarousel.Gesture | docs/portfolio.js:119-134 | press at `x0` then move: the offset ends at the pressed offset minus 1.5 times the net displacement, and comes back when the pointer returns to `x0` |
| ProjectCarousel.ReleasedMovesNoEffect | docs/portfolio.js:125-134 | after mouse-up or mouse-leave, moves never scroll the track |
| ContactForm.Form.OnSubmit | docs/portfolio.js:148-157 | submit keeps the typed values, shows `Message Sent ✓` on `#2ecc71` with spacing `0.18em`, and schedules one more reset |
| ContactForm.Form.OnResetTimer | docs/portfolio.js:157-162 | the timer restores `Send Message →`, clears background and letter-spacing to `''`, and resets the fields to their defaults |
| ContactForm.RunSummary | docs/portfolio.js:148-162 | over any run of submits, timer firings and user edits, the button shows the sent state exactly when the last submit-or-timer event was a submit, and the pending timers are the submits not yet matched by a firing. The fields are the defaults right after a timer fires, what the user typed right after an edit, and untouched by submits. |
| NavbarShadow.ShadowFor | docs/portfolio.js:174-178 | the shadow is `0 4px 30px rgba(0,0,0,0.5)` exactly when `scrollY > 10` and `none` exactly otherwise |
| NavbarShadow.ShadowMonotone | docs/portfolio.js:174 | scrolling further down never removes the shadow |
| NavbarShadow.Navbar.OnScroll | docs/portfolio.js:173-178 | the handler sets the shadow from `scrollY` alone, whatever it was before |
| SkillBars.SkillSection.OnLoadTimer | docs/progressbar.js:2-10 | after the load pass every bar's width is its `data-progress` followed by `%`. Other bars and the attributes are unchanged. |
| SkillBars.SkillSection.ObserveItems | docs/progressbar.js:25-26 | registration adds every `.skill-item` to the watched set |
| SkillBars.SkillSection.OnIntersect | docs/progressbar.js:13-23 | the callback writes the width of the first bar of each intersecting item that has one, and nothing else. It never unobserves. |
| SkillBars.WrittenAt | docs/progressbar.js:6-7 | a written bar's width is its attribute (or `null`) followed by `%`, and every other bar keeps its width |
| SkillBars.WrittenCompose | docs/progressbar.js:5-20 | two width writes are one write of the union of their bars |
| SkillBars.WrittenIdempotent | docs/progressbar.js:7 | writing the same bars again changes nothing |
| SkillBars.NonIntersectingTouchesNothing | docs/progressbar.js:15 | non-intersecting entries write no width |
| SkillBars.ChildlessItemTouchesNothing | docs/progressbar.js:16-17 | an item without a `.skill-progress` child writes no width |
| SkillBars.IntersectingItemTouchesChild | docs/progressbar.js:15-20 | an intersecting item with a child has that child's width written |
| SkillBars.RunPassesIsOneWrite | docs/progressbar.js:2-23 | any run of load and observer passes, in any order, is one write of every bar any pass touches |
| SkillBars.PassesSettleToLoad | docs/progressbar.js:2-26 | when items' bars are page bars, any run containing the load pass leaves exactly the widths of one load pass |
| SkillBars.ObserverRepeatable | docs/progressbar.js:13-26 | re-delivering the same batch to the observer leaves the widths of a single delivery |

## Left out

- The canvas 2D API itself. Pixel blending and colour parsing are not modelled: colours are opaque strings and `fillRect` appends a record.
- The mouse-move `translate(...)` transform of the cursor canvas (docs/portfolio.js:48-50). It only formats host coordinates into a string.
- Smooth-scroll animation and the browser's clamping of `scrollLeft` to the track's scroll range. The model assigns the unclamped value at once.
- JavaScript floating-point arithmetic for the 1.5 gain. Coordinates are reals.
- The intersection geometry and the 0.12 and 0.5 thresholds. Each entry carries `isIntersecting` as an input.
- `setTimeout` delays (500 ms, 2500 ms). Each callback is an explicit step, so "no earlier than 2500 ms" is not expressible.
- `getElementById` and `querySelectorAll` lookups, and the crash when an element is missing. The elements are assumed to exist, and the lists they return are fields.
- `preventDefault` and event dispatch. A prevented submit is modelled as leaving the typed values in place.
- The send button's label and styles before the first submit come from the page markup, not the script. The constructor starts from the restored state.
- CSS value parsing of `style.width`. The browser rejects an invalid value such as `"null%"` or a non-numeric percentage and keeps the previous width; the model records the string the script assigns.
