/**
 * The pixel-art mouse cursor: a fixed 16 x 16 bitmap painted onto a canvas,
 * one SCALE x SCALE square per non-transparent cell.
 *
 * The 2D context is modelled by what the renderer does with it: `fillStyle`
 * is a field, `clearRect` forgets every square drawn so far, and `fillRect`
 * appends a record to `drawn`. Pixel blending and colour parsing are not
 * modelled; colours are opaque strings.
 */
module PixelCursor {

  /** Each logical pixel is drawn as a Scale x Scale square of real pixels. */
  const Scale: int := 2

  /** 0 = transparent, 1 = outline, 2 = fill; 16 rows of 16 columns. */
  const CursorMap: seq<seq<int>> := [
    [1,0,0,0,0,0,0,0,0,0,0,0,0,0,0,0],
    [1,1,0,0,0,0,0,0,0,0,0,0,0,0,0,0],
    [1,2,1,0,0,0,0,0,0,0,0,0,0,0,0,0],
    [1,2,2,1,0,0,0,0,0,0,0,0,0,0,0,0],
    [1,2,2,2,1,0,0,0,0,0,0,0,0,0,0,0],
    [1,2,2,2,2,1,0,0,0,0,0,0,0,0,0,0],
    [1,2,2,2,2,2,1,0,0,0,0,0,0,0,0,0],
    [1,2,2,2,2,2,2,1,0,0,0,0,0,0,0,0],
    [1,2,2,2,2,2,2,2,1,0,0,0,0,0,0,0],
    [1,2,2,2,2,2,1,1,1,1,0,0,0,0,0,0],
    [1,2,2,1,2,2,1,0,0,0,0,0,0,0,0,0],
    [1,2,1,0,1,2,2,1,0,0,0,0,0,0,0,0],
    [1,1,0,0,0,1,2,2,1,0,0,0,0,0,0,0],
    [1,0,0,0,0,1,2,2,1,0,0,0,0,0,0,0],
    [0,0,0,0,0,0,1,2,1,0,0,0,0,0,0,0],
    [0,0,0,0,0,0,0,1,1,0,0,0,0,0,0,0]
  ]

  /** Colour of cells valued 1 while the button is up. */
  const Accent: string := "#c8f03c"
  /** Colour of cells valued 1 while the button is held down. */
  const Pressed: string := "#555"
  /** Colour of every other non-transparent cell. */
  const HalfWhite: string := "rgba(255,255,255,0.6)"

  /** One `fillRect(x, y, w, h)` call together with the `fillStyle` in force. */
  datatype Rect = Rect(x: int, y: int, w: int, h: int, colour: string)

  function CellColour(val: int, clicking: bool): string
  {
    if val == 1 then (if clicking then Pressed else Accent) else HalfWhite
  }

  /** The square painted for the cell at (row, col) holding `val`. */
  function CellSquare(val: int, row: int, col: int, clicking: bool): Rect
  {
    Rect(col * Scale, row * Scale, Scale, Scale, CellColour(val, clicking))
  }

  /** What one visit of the inner loop paints: nothing for a transparent cell. */
  function CellRects(val: int, row: int, col: int, clicking: bool): seq<Rect>
  {
    if val == 0 then [] else [CellSquare(val, row, col, clicking)]
  }

  /** The squares painted for the first `n` cells of row `row`. */
  function RowRects(line: seq<int>, row: int, n: nat, clicking: bool): seq<Rect>
    requires n <= |line|
  {
    if n == 0 then []
    else RowRects(line, row, n - 1, clicking) + CellRects(line[n - 1], row, n - 1, clicking)
  }

  /** The squares painted for the first `n` rows of the grid. */
  function GridRects(grid: seq<seq<int>>, n: nat, clicking: bool): seq<Rect>
    requires n <= |grid|
  {
    if n == 0 then []
    else GridRects(grid, n - 1, clicking) + RowRects(grid[n - 1], n - 1, |grid[n - 1]|, clicking)
  }

  /** Every square a full render of `grid` paints, in drawing order. */
  function Picture(grid: seq<seq<int>>, clicking: bool): seq<Rect>
  {
    GridRects(grid, |grid|, clicking)
  }

  /**
   * `r` is the square of some non-transparent cell of `grid`: its corner
   * lies on the Scale lattice, names a cell inside the (possibly ragged)
   * grid, that cell is not 0, and size and colour are those of that cell.
   */
  ghost predicate IsCellSquare(grid: seq<seq<int>>, clicking: bool, r: Rect)
  {
    0 <= r.x && 0 <= r.y && r.x % Scale == 0 && r.y % Scale == 0 &&
    r.y / Scale < |grid| && r.x / Scale < |grid[r.y / Scale]| &&
    grid[r.y / Scale][r.x / Scale] != 0 &&
    r == CellSquare(grid[r.y / Scale][r.x / Scale], r.y / Scale, r.x / Scale, clicking)
  }

  /** `a` is painted strictly before `b` in row-major order. */
  predicate RowMajorBefore(a: Rect, b: Rect)
  {
    a.y < b.y || (a.y == b.y && a.x < b.x)
  }

  /** Number of non-transparent cells of one row, counted from the front. */
  function NonZeroCount(line: seq<int>): nat
  {
    if line == [] then 0
    else (if line[0] != 0 then 1 else 0) + NonZeroCount(line[1..])
  }

  /** Number of non-transparent cells of the whole grid. */
  function CellCount(grid: seq<seq<int>>): nat
  {
    if grid == [] then 0 else NonZeroCount(grid[0]) + CellCount(grid[1..])
  }

  // ---------------------------------------------------------------------
  // Soundness: every painted square belongs to a non-transparent cell.
  // ---------------------------------------------------------------------

  lemma {:induction false} RowRectsSound(grid: seq<seq<int>>, row: nat, n: nat, clicking: bool)
    requires row < |grid| && n <= |grid[row]|
    ensures forall r | r in RowRects(grid[row], row, n, clicking) ::
      IsCellSquare(grid, clicking, r) && r.y == row * Scale && r.x < n * Scale
  {
    if n > 0 {
      RowRectsSound(grid, row, n - 1, clicking);
    }
  }

  lemma {:induction false} GridRectsSound(grid: seq<seq<int>>, n: nat, clicking: bool)
    requires n <= |grid|
    ensures forall r | r in GridRects(grid, n, clicking) ::
      IsCellSquare(grid, clicking, r) && r.y < n * Scale
  {
    if n > 0 {
      GridRectsSound(grid, n - 1, clicking);
      RowRectsSound(grid, n - 1, |grid[n - 1]|, clicking);
    }
  }

  /** Each square drawn is the square of a non-zero cell, with that cell's colour. */
  lemma PictureSound(grid: seq<seq<int>>, clicking: bool)
    ensures forall r | r in Picture(grid, clicking) :: IsCellSquare(grid, clicking, r)
  {
    GridRectsSound(grid, |grid|, clicking);
  }

  /** A transparent cell gets no square at its position. */
  lemma TransparentCellsUnpainted(grid: seq<seq<int>>, clicking: bool, row: nat, col: nat)
    requires row < |grid| && col < |grid[row]| && grid[row][col] == 0
    ensures forall r | r in Picture(grid, clicking) :: r.x != col * Scale || r.y != row * Scale
  {
    PictureSound(grid, clicking);
  }

  /**
   * Outline cells (value 1) take the pressed or the accent colour according to
   * the flag; every other non-transparent value takes the half-white colour,
   * whatever the flag.
   */
  lemma PictureColours(grid: seq<seq<int>>, clicking: bool)
    ensures forall r | r in Picture(grid, clicking) ::
      && IsCellSquare(grid, clicking, r)
      && (grid[r.y / Scale][r.x / Scale] == 1 ==> r.colour == (if clicking then Pressed else Accent))
      && (grid[r.y / Scale][r.x / Scale] != 1 ==> r.colour == HalfWhite)
  {
    PictureSound(grid, clicking);
  }

  /** On a grid of at most `height` rows of at most `width` cells, every square fits the canvas. */
  lemma PictureWithinBounds(grid: seq<seq<int>>, clicking: bool, width: nat, height: nat)
    requires |grid| <= height
    requires forall row | 0 <= row < |grid| :: |grid[row]| <= width
    ensures forall r | r in Picture(grid, clicking) ::
      0 <= r.x && r.x + r.w <= width * Scale && 0 <= r.y && r.y + r.h <= height * Scale
  {
    PictureSound(grid, clicking);
  }

  /** The cursor bitmap is 16 x 16, so it fits a 32 x 32 pixel canvas. */
  lemma CursorWithinCanvas(clicking: bool)
    ensures forall r | r in Picture(CursorMap, clicking) ::
      0 <= r.x && r.x + r.w <= 32 && 0 <= r.y && r.y + r.h <= 32
  {
    assert |CursorMap| == 16;
    forall row | 0 <= row < |CursorMap| ensures |CursorMap[row]| <= 16 {
    }
    PictureWithinBounds(CursorMap, clicking, 16, 16);
  }

  // ---------------------------------------------------------------------
  // Completeness: every non-transparent cell is painted.
  // ---------------------------------------------------------------------

  lemma {:induction false} RowRectsComplete(line: seq<int>, row: int, n: nat, clicking: bool, col: nat)
    requires col < n <= |line| && line[col] != 0
    ensures CellSquare(line[col], row, col, clicking) in RowRects(line, row, n, clicking)
  {
    if col < n - 1 {
      RowRectsComplete(line, row, n - 1, clicking, col);
    }
  }

  lemma {:induction false} GridRectsComplete(grid: seq<seq<int>>, n: nat, clicking: bool, row: nat, col: nat)
    requires row < n <= |grid| && col < |grid[row]| && grid[row][col] != 0
    ensures CellSquare(grid[row][col], row, col, clicking) in GridRects(grid, n, clicking)
  {
    if row < n - 1 {
      GridRectsComplete(grid, n - 1, clicking, row, col);
    } else {
      RowRectsComplete(grid[row], row, |grid[row]|, clicking, col);
    }
  }

  /** Each non-zero cell gets its Scale x Scale square at (col * Scale, row * Scale). */
  lemma PictureComplete(grid: seq<seq<int>>, clicking: bool, row: nat, col: nat)
    requires row < |grid| && col < |grid[row]| && grid[row][col] != 0
    ensures CellSquare(grid[row][col], row, col, clicking) in Picture(grid, clicking)
    ensures Rect(col * Scale, row * Scale, Scale, Scale, CellColour(grid[row][col], clicking))
      in Picture(grid, clicking)
  {
    GridRectsComplete(grid, |grid|, clicking, row, col);
  }

  // ---------------------------------------------------------------------
  // Order and count: squares come in row-major order, one per cell.
  // ---------------------------------------------------------------------

  ghost predicate RowMajor(rs: seq<Rect>)
  {
    forall i, j | 0 <= i < j < |rs| :: RowMajorBefore(rs[i], rs[j])
  }

  lemma RowMajorAppend(a: seq<Rect>, b: seq<Rect>)
    requires RowMajor(a) && RowMajor(b)
    requires forall r, s | r in a && s in b :: RowMajorBefore(r, s)
    ensures RowMajor(a + b)
  {
    forall i, j | 0 <= i < j < |a + b| ensures RowMajorBefore((a + b)[i], (a + b)[j]) {
      if j < |a| {
      } else if i < |a| {
        assert (a + b)[i] in a && (a + b)[j] in b;
      } else {
        assert (a + b)[i] == b[i - |a|] && (a + b)[j] == b[j - |a|];
      }
    }
  }

  lemma {:induction false} RowRectsOrdered(grid: seq<seq<int>>, row: nat, n: nat, clicking: bool)
    requires row < |grid| && n <= |grid[row]|
    ensures RowMajor(RowRects(grid[row], row, n, clicking))
  {
    if n > 0 {
      RowRectsOrdered(grid, row, n - 1, clicking);
      RowRectsSound(grid, row, n - 1, clicking);
      RowMajorAppend(RowRects(grid[row], row, n - 1, clicking),
                     CellRects(grid[row][n - 1], row, n - 1, clicking));
    }
  }

  lemma {:induction false} GridRectsOrdered(grid: seq<seq<int>>, n: nat, clicking: bool)
    requires n <= |grid|
    ensures RowMajor(GridRects(grid, n, clicking))
  {
    if n > 0 {
      GridRectsOrdered(grid, n - 1, clicking);
      GridRectsSound(grid, n - 1, clicking);
      RowRectsOrdered(grid, n - 1, |grid[n - 1]|, clicking);
      RowRectsSound(grid, n - 1, |grid[n - 1]|, clicking);
      RowMajorAppend(GridRects(grid, n - 1, clicking),
                     RowRects(grid[n - 1], n - 1, |grid[n - 1]|, clicking));
    }
  }

  /** Squares are drawn row by row, left to right, so no square is drawn twice. */
  lemma PictureRowMajor(grid: seq<seq<int>>, clicking: bool)
    ensures forall i, j | 0 <= i < j < |Picture(grid, clicking)| ::
      RowMajorBefore(Picture(grid, clicking)[i], Picture(grid, clicking)[j]) &&
      Picture(grid, clicking)[i] != Picture(grid, clicking)[j]
  {
    GridRectsOrdered(grid, |grid|, clicking);
  }

  lemma {:induction false} NonZeroCountSnoc(line: seq<int>, v: int)
    ensures NonZeroCount(line + [v]) == NonZeroCount(line) + (if v != 0 then 1 else 0)
  {
    if line != [] {
      assert (line + [v])[1..] == line[1..] + [v];
      NonZeroCountSnoc(line[1..], v);
    }
  }

  lemma {:induction false} CellCountSnoc(grid: seq<seq<int>>, line: seq<int>)
    ensures CellCount(grid + [line]) == CellCount(grid) + NonZeroCount(line)
  {
    if grid != [] {
      assert (grid + [line])[1..] == grid[1..] + [line];
      CellCountSnoc(grid[1..], line);
    }
  }

  lemma {:induction false} RowRectsCount(line: seq<int>, row: int, n: nat, clicking: bool)
    requires n <= |line|
    ensures |RowRects(line, row, n, clicking)| == NonZeroCount(line[..n])
  {
    if n > 0 {
      RowRectsCount(line, row, n - 1, clicking);
      assert line[..n] == line[..n - 1] + [line[n - 1]];
      NonZeroCountSnoc(line[..n - 1], line[n - 1]);
    }
  }

  lemma {:induction false} GridRectsCount(grid: seq<seq<int>>, n: nat, clicking: bool)
    requires n <= |grid|
    ensures |GridRects(grid, n, clicking)| == CellCount(grid[..n])
  {
    if n > 0 {
      GridRectsCount(grid, n - 1, clicking);
      RowRectsCount(grid[n - 1], n - 1, |grid[n - 1]|, clicking);
      assert grid[n - 1][..|grid[n - 1]|] == grid[n - 1];
      assert grid[..n] == grid[..n - 1] + [grid[n - 1]];
      CellCountSnoc(grid[..n - 1], grid[n - 1]);
    }
  }

  /** Exactly one square per non-transparent cell. */
  lemma PictureCount(grid: seq<seq<int>>, clicking: bool)
    ensures |Picture(grid, clicking)| == CellCount(grid)
  {
    GridRectsCount(grid, |grid|, clicking);
    assert grid[..|grid|] == grid;
  }

  /** `a` and `b` paint the same positions in the same order, whatever their colours. */
  ghost predicate SameShape(a: seq<Rect>, b: seq<Rect>)
  {
    |a| == |b| && forall i | 0 <= i < |a| :: a[i].x == b[i].x && a[i].y == b[i].y
  }

  lemma SameShapeAppend(a: seq<Rect>, b: seq<Rect>, c: seq<Rect>, d: seq<Rect>)
    requires SameShape(a, b) && SameShape(c, d)
    ensures SameShape(a + c, b + d)
  {
    forall i | 0 <= i < |a + c| ensures (a + c)[i].x == (b + d)[i].x && (a + c)[i].y == (b + d)[i].y {
      if i >= |a| {
        assert (a + c)[i] == c[i - |a|] && (b + d)[i] == d[i - |a|];
      }
    }
  }

  lemma {:induction false} RowShapeIndependentOfFlag(line: seq<int>, row: int, n: nat)
    requires n <= |line|
    ensures SameShape(RowRects(line, row, n, true), RowRects(line, row, n, false))
  {
    if n > 0 {
      RowShapeIndependentOfFlag(line, row, n - 1);
      SameShapeAppend(RowRects(line, row, n - 1, true), RowRects(line, row, n - 1, false),
                      CellRects(line[n - 1], row, n - 1, true), CellRects(line[n - 1], row, n - 1, false));
    }
  }

  lemma {:induction false} GridShapeIndependentOfFlag(grid: seq<seq<int>>, n: nat)
    requires n <= |grid|
    ensures SameShape(GridRects(grid, n, true), GridRects(grid, n, false))
  {
    if n > 0 {
      GridShapeIndependentOfFlag(grid, n - 1);
      RowShapeIndependentOfFlag(grid[n - 1], n - 1, |grid[n - 1]|);
      SameShapeAppend(GridRects(grid, n - 1, true), GridRects(grid, n - 1, false),
                      RowRects(grid[n - 1], n - 1, |grid[n - 1]|, true),
                      RowRects(grid[n - 1], n - 1, |grid[n - 1]|, false));
    }
  }

  /** The pressed flag only decides colours: both renders paint the same squares in the same order. */
  lemma PictureShapeIndependentOfFlag(grid: seq<seq<int>>)
    ensures |Picture(grid, true)| == |Picture(grid, false)|
    ensures forall i | 0 <= i < |Picture(grid, true)| ::
      Picture(grid, true)[i].x == Picture(grid, false)[i].x &&
      Picture(grid, true)[i].y == Picture(grid, false)[i].y &&
      Picture(grid, true)[i].w == Picture(grid, false)[i].w &&
      Picture(grid, true)[i].h == Picture(grid, false)[i].h
  {
    GridShapeIndependentOfFlag(grid, |grid|);
    PictureSound(grid, true);
    PictureSound(grid, false);
    forall i | 0 <= i < |Picture(grid, true)|
      ensures Picture(grid, true)[i].w == Picture(grid, false)[i].w
      ensures Picture(grid, true)[i].h == Picture(grid, false)[i].h
    {
      assert Picture(grid, true)[i] in Picture(grid, true);
      assert Picture(grid, false)[i] in Picture(grid, false);
    }
  }

  // ---------------------------------------------------------------------
  // The canvas and the renderer.
  // ---------------------------------------------------------------------

  /** The cursor canvas's 2D context, reduced to what the renderer uses. */
  class CursorCanvas {
    /** Squares filled since the canvas was last cleared, oldest first. */
    var drawn: seq<Rect>
    var fillStyle: string

    constructor ()
      ensures drawn == [] && fillStyle == "#000000"
    {
      drawn := [];
      fillStyle := "#000000";
    }

    /** `clearRect` over the whole canvas. */
    method ClearRect()
      modifies this
      ensures drawn == [] && fillStyle == old(fillStyle)
    {
      drawn := [];
    }

    method FillRect(x: int, y: int, w: int, h: int)
      modifies this
      ensures drawn == old(drawn) + [Rect(x, y, w, h, old(fillStyle))]
      ensures fillStyle == old(fillStyle)
    {
      drawn := drawn + [Rect(x, y, w, h, fillStyle)];
    }

    /**
     * Clears the canvas, then paints the cursor bitmap. What is on the canvas
     * afterwards does not depend on what was on it before: drawing twice with
     * the same flag leaves the same picture.
     */
    method DrawCursor(clicking: bool)
      modifies this
      ensures drawn == Picture(CursorMap, clicking)
      ensures fillStyle == if drawn == [] then old(fillStyle) else drawn[|drawn| - 1].colour
    {
      DrawBitmap(CursorMap, clicking);
    }

    /** The body of the renderer, over any bitmap: clear, then one square per non-zero cell. */
    method DrawBitmap(grid: seq<seq<int>>, clicking: bool)
      modifies this
      ensures drawn == Picture(grid, clicking)
      ensures fillStyle == if drawn == [] then old(fillStyle) else drawn[|drawn| - 1].colour
    {
      ClearRect();
      var row := 0;
      while row < |grid|
        invariant 0 <= row <= |grid|
        invariant drawn == GridRects(grid, row, clicking)
        invariant fillStyle == if drawn == [] then old(fillStyle) else drawn[|drawn| - 1].colour
      {
        DrawRow(grid[row], row, clicking);
        row := row + 1;
      }
    }

    /** The inner loop of the renderer: one row of the bitmap, left to right. */
    method DrawRow(line: seq<int>, row: int, clicking: bool)
      modifies this
      ensures drawn == old(drawn) + RowRects(line, row, |line|, clicking)
      ensures fillStyle == if drawn == old(drawn) then old(fillStyle) else drawn[|drawn| - 1].colour
    {
      var col := 0;
      while col < |line|
        invariant 0 <= col <= |line|
        invariant drawn == old(drawn) + RowRects(line, row, col, clicking)
        invariant fillStyle == if drawn == old(drawn) then old(fillStyle) else drawn[|drawn| - 1].colour
      {
        var val := line[col];
        if val != 0 {
          fillStyle := if val == 1 then (if clicking then Pressed else Accent) else HalfWhite;
          FillRect(col * Scale, row * Scale, Scale, Scale);
        }
        col := col + 1;
      }
    }
  }

  /** Page load and mouse-up draw the resting cursor; mouse-down the pressed one. */
  method OnPointerButton(canvas: CursorCanvas, down: bool)
    modifies canvas
    ensures canvas.drawn == Picture(CursorMap, down)
  {
    canvas.DrawCursor(down);
  }
}
