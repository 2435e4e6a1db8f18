/** What `createBaseImage` paints, as a specification: the modules are
    visited row by row, left to right, and each module equal to 1 becomes
    one `imagefilledrectangle` call. A later call overwrites an earlier one
    where their rectangles overlap (neighbouring rectangles share their
    border line, since both corners are inclusive). */
module Raster {
  import opened Errors
  import opened Canvas
  import opened Gradients

  /** How true modules are painted: in the foreground colour, or from the
      gradient table when one was built and is not empty. */
  datatype Paint = Solid(foreground: Color) | Gradient(kind: string, colors: seq<Fill>)

  /** The input of the painting loops: the module matrix (`matrix[row][col]`,
      each row `width` long), the block size and the two colours. */
  datatype Raster = Raster(modules: seq<seq<int>>, width: nat, block: int, paint: Paint, background: Color)

  ghost predicate Wf(R: Raster) {
    forall row :: 0 <= row < |R.modules| ==> |R.modules[row]| == R.width
  }

  /** One `imagefilledrectangle` call; its colour is `None` when the argument
      is not an integer (the `''` placeholder, or a row past the end of the
      table), which strict typing rejects with a `TypeError`. */
  datatype Op = Op(rect: Rect, color: Option<Color>)

  function CellRect(b: int, x: int, y: int): Rect {
    Rect(x * b, y * b, (x + 1) * b, (y + 1) * b)
  }

  /** The rectangle of the module at (row, col): the cell at column `col`
      and row `row`, transposed for a horizontal gradient. */
  function Footprint(R: Raster, row: int, col: int): Rect {
    if R.paint.Gradient? && R.paint.kind == "horizontal" then CellRect(R.block, row, col)
    else CellRect(R.block, col, row)
  }

  /** `$colors[$row]` as a GD colour: an allocated colour is opaque. */
  function TableColor(colors: seq<Fill>, row: int): Option<Color> {
    if 0 <= row < |colors| && colors[row].Allocated? then
      var c := colors[row].rgb;
      Some(Color(c.r, c.g, c.b, 0))
    else None
  }

  /** The call the module at (row, col) makes, if any. */
  function ModuleOp(R: Raster, row: nat, col: nat): Option<Op>
    requires Wf(R) && row < |R.modules| && col < R.width
  {
    if R.modules[row][col] != 1 then None
    else
      match R.paint
      case Solid(fg) => Some(Op(Footprint(R, row, col), Some(fg)))
      case Gradient(kind, colors) =>
        if kind == "vertical" || kind == "horizontal" then Some(Op(Footprint(R, row, col), TableColor(colors, row)))
        else None
  }

  /** The module at (row, col) throws. */
  predicate FailsAt(R: Raster, row: nat, col: nat)
    requires Wf(R) && row < |R.modules| && col < R.width
  {
    ModuleOp(R, row, col).Some? && ModuleOp(R, row, col).value.color.None?
  }

  /** The module at (row, col) paints pixel (x, y). */
  predicate Paints(R: Raster, row: nat, col: nat, x: int, y: int)
    requires Wf(R) && row < |R.modules| && col < R.width
  {
    && ModuleOp(R, row, col).Some?
    && ModuleOp(R, row, col).value.color.Some?
    && InRect(ModuleOp(R, row, col).value.rect, x, y)
  }

  function PaintColor(R: Raster, row: nat, col: nat): Color
    requires Wf(R) && row < |R.modules| && col < R.width
    requires ModuleOp(R, row, col).Some? && ModuleOp(R, row, col).value.color.Some?
  {
    ModuleOp(R, row, col).value.color.value
  }

  /** (r, c) comes strictly before (row, col) in row-major order. */
  predicate Before(r: int, c: int, row: int, col: int) {
    r < row || (r == row && c < col)
  }

  /** A position of the loops: (row, col) with col <= width, or one past the
      last row. */
  predicate Position(R: Raster, row: nat, col: nat) {
    (row < |R.modules| && col <= R.width) || (row == |R.modules| && col == 0)
  }

  /** The colour of pixel (x, y) once the modules before (row, col) have been
      painted onto the background. */
  function After(R: Raster, row: nat, col: nat, x: int, y: int): Color
    requires Wf(R) && Position(R, row, col)
    decreases row, col
  {
    if col == 0 then
      if row == 0 then R.background else After(R, row - 1, R.width, x, y)
    else if Paints(R, row, col - 1, x, y) then PaintColor(R, row, col - 1)
    else After(R, row, col - 1, x, y)
  }

  /** The finished base image. */
  function Pixel(R: Raster, x: int, y: int): Color
    requires Wf(R)
  {
    After(R, |R.modules|, 0, x, y)
  }

  /** Painting throws at some module. */
  ghost predicate Fails(R: Raster)
    requires Wf(R)
  {
    exists row: nat, col: nat :: row < |R.modules| && col < R.width && FailsAt(R, row, col)
  }

  /** A pixel no module before (row, col) paints keeps the background. */
  lemma {:induction false} AfterUncovered(R: Raster, row: nat, col: nat, x: int, y: int)
    requires Wf(R) && Position(R, row, col)
    requires forall r: nat, c: nat :: r < |R.modules| && c < R.width && Before(r, c, row, col) ==> !Paints(R, r, c, x, y)
    ensures After(R, row, col, x, y) == R.background
    decreases row, col
  {
    if col == 0 {
      if row > 0 {
        AfterUncovered(R, row - 1, R.width, x, y);
      }
    } else {
      AfterUncovered(R, row, col - 1, x, y);
    }
  }

  /** The last module before (row, col) that paints a pixel decides its
      colour. */
  lemma {:induction false} AfterLastPainter(R: Raster, r0: nat, c0: nat, row: nat, col: nat, x: int, y: int)
    requires Wf(R) && Position(R, row, col)
    requires r0 < |R.modules| && c0 < R.width && Before(r0, c0, row, col)
    requires Paints(R, r0, c0, x, y)
    requires forall r: nat, c: nat ::
               r < |R.modules| && c < R.width && Before(r0, c0, r, c) && Before(r, c, row, col) ==> !Paints(R, r, c, x, y)
    ensures After(R, row, col, x, y) == PaintColor(R, r0, c0)
    decreases row, col
  {
    if col == 0 {
      AfterLastPainter(R, r0, c0, row - 1, R.width, x, y);
    } else if r0 == row && c0 == col - 1 {
    } else {
      AfterLastPainter(R, r0, c0, row, col - 1, x, y);
    }
  }

  /** Pixel (x, y) lies in the half-open cell of a rectangle (the rectangle
      minus its right and bottom border). */
  predicate InCell(rc: Rect, x: int, y: int) {
    rc.x1 <= x < rc.x2 && rc.y1 <= y < rc.y2
  }

  /** Pixel (x, y) lies strictly inside a rectangle. */
  predicate InInterior(rc: Rect, x: int, y: int) {
    rc.x1 < x < rc.x2 && rc.y1 < y < rc.y2
  }

  lemma MulStep(a: int, b: int, n: int)
    requires a < b && n >= 1
    ensures (a + 1) * n <= b * n
  {
    assert b * n - (a + 1) * n == (b - a - 1) * n;
  }

  /** No module after (r0, c0) paints a pixel of the half-open cell of
      (r0, c0). */
  lemma LaterModulesMissCell(R: Raster, r0: nat, c0: nat, r: nat, c: nat, x: int, y: int)
    requires Wf(R) && R.block >= 1
    requires r0 < |R.modules| && c0 < R.width && r < |R.modules| && c < R.width
    requires Before(r0, c0, r, c)
    requires InCell(Footprint(R, r0, c0), x, y)
    ensures !Paints(R, r, c, x, y)
  {
    var b := R.block;
    if Paints(R, r, c, x, y) {
      if r0 < r {
        MulStep(r0, r, b);
      } else {
        MulStep(c0, c, b);
      }
      assert false;
    }
  }

  /** A painting module owns the half-open cell of its footprint: nothing
      painted later covers it, so the finished image shows its colour there. */
  lemma OwnCell(R: Raster, r0: nat, c0: nat, x: int, y: int)
    requires Wf(R) && R.block >= 1
    requires r0 < |R.modules| && c0 < R.width
    requires ModuleOp(R, r0, c0).Some? && ModuleOp(R, r0, c0).value.color.Some?
    requires InCell(Footprint(R, r0, c0), x, y)
    ensures Pixel(R, x, y) == PaintColor(R, r0, c0)
  {
    forall r: nat, c: nat | r < |R.modules| && c < R.width && Before(r0, c0, r, c) && Before(r, c, |R.modules|, 0)
      ensures !Paints(R, r, c, x, y)
    {
      LaterModulesMissCell(R, r0, c0, r, c, x, y);
    }
    AfterLastPainter(R, r0, c0, |R.modules|, 0, x, y);
  }

  /** Only the module itself can paint the interior of its own footprint. */
  lemma InteriorOnlyOwnModule(R: Raster, r0: nat, c0: nat, r: nat, c: nat, x: int, y: int)
    requires Wf(R) && R.block >= 1
    requires r0 < |R.modules| && c0 < R.width && r < |R.modules| && c < R.width
    requires InInterior(Footprint(R, r0, c0), x, y)
    requires Paints(R, r, c, x, y)
    ensures r == r0 && c == c0
  {
    var b := R.block;
    if r != r0 {
      if r < r0 {
        MulStep(r, r0, b);
      } else {
        MulStep(r0, r, b);
      }
      assert false;
    }
    if c != c0 {
      if c < c0 {
        MulStep(c, c0, b);
      } else {
        MulStep(c0, c, b);
      }
      assert false;
    }
  }

  /** A module that is not 1 leaves the interior of its footprint in the
      background colour, whatever its neighbours do. */
  lemma FalseModuleInterior(R: Raster, r0: nat, c0: nat, x: int, y: int)
    requires Wf(R) && R.block >= 1
    requires r0 < |R.modules| && c0 < R.width
    requires R.modules[r0][c0] != 1
    requires InInterior(Footprint(R, r0, c0), x, y)
    ensures Pixel(R, x, y) == R.background
  {
    forall r: nat, c: nat | r < |R.modules| && c < R.width && Before(r, c, |R.modules|, 0)
      ensures !Paints(R, r, c, x, y)
    {
      if Paints(R, r, c, x, y) {
        InteriorOnlyOwnModule(R, r0, c0, r, c, x, y);
      }
    }
    AfterUncovered(R, |R.modules|, 0, x, y);
  }

  /** A gradient type other than vertical and horizontal (the commented-out
      shapes) paints nothing: the image stays background everywhere. */
  lemma OtherGradientPaintsNothing(R: Raster, x: int, y: int)
    requires Wf(R)
    requires R.paint.Gradient? && R.paint.kind != "vertical" && R.paint.kind != "horizontal"
    ensures Pixel(R, x, y) == R.background
    ensures !Fails(R)
  {
    AfterUncovered(R, |R.modules|, 0, x, y);
  }

  /** A white start colour makes entry 0 the placeholder, so any true module
      in row 0 under a vertical or horizontal gradient throws. */
  lemma PlaceholderRowFails(R: Raster, c: nat)
    requires Wf(R) && 0 < |R.modules| && c < R.width
    requires R.paint.Gradient? && (R.paint.kind == "vertical" || R.paint.kind == "horizontal")
    requires |R.paint.colors| > 0 && R.paint.colors[0] == Placeholder
    requires R.modules[0][c] == 1
    ensures Fails(R)
  {
    assert FailsAt(R, 0, c);
  }

  /** A gradient table with an allocated colour for every row never throws. */
  lemma AllocatedTableNeverFails(R: Raster)
    requires Wf(R) && R.paint.Gradient? && |R.paint.colors| >= |R.modules|
    requires forall k :: 0 <= k < |R.paint.colors| ==> R.paint.colors[k].Allocated?
    ensures !Fails(R)
  {
    if Fails(R) {
      var row: nat, col: nat :| row < |R.modules| && col < R.width && FailsAt(R, row, col);
      assert false;
    }
  }

  /** A solid paint never throws. */
  lemma SolidNeverFails(R: Raster)
    requires Wf(R) && R.paint.Solid?
    ensures !Fails(R)
  {
  }
}
