// Grid slicing of a sprite sheet (sprite_model/sprite_extraction.py):
// parameter validation, the grid-layout arithmetic, row-major extraction of
// whole cells, merging of nearby connected-component boxes, and the grouping
// of sprite centres into grid columns.
module SpriteExtraction {
  import opened Wrappers
  import opened Config
  import opened Geometry

  /** A loaded, non-null sprite sheet; only its size matters here. */
  datatype Sheet = Sheet(width: nat, height: nat)

  datatype GridConfig = GridConfig(
    width: int, height: int,
    offsetX: int, offsetY: int,
    spacingX: int, spacingY: int)

  datatype GridLayout = GridLayout(
    framesPerRow: int, framesPerCol: int, totalFrames: int,
    availableWidth: int, availableHeight: int)

  /** The reasons `validate_frame_settings` gives, in the order it checks them. */
  datatype SettingsError =
    | WidthNotPositive | HeightNotPositive | WidthTooLarge | HeightTooLarge
    | OffsetXNegative | OffsetYNegative | OffsetXTooLarge | OffsetYTooLarge
    | SpacingXNegative | SpacingYNegative | SpacingXTooLarge | SpacingYTooLarge
    | ExceedsSheetWidth | ExceedsSheetHeight

  datatype ExtractError = NoSheet | Invalid(reason: SettingsError)

  /** Every limit on the parameters themselves, stated as one conjunction. */
  predicate InRange(c: GridConfig)
  {
    0 < c.width <= MAX_FRAME_SIZE && 0 < c.height <= MAX_FRAME_SIZE &&
    0 <= c.offsetX <= MAX_OFFSET && 0 <= c.offsetY <= MAX_OFFSET &&
    0 <= c.spacingX <= MAX_SPACING && 0 <= c.spacingY <= MAX_SPACING
  }

  /** At least one frame fits after the offset. */
  predicate FirstFrameFits(s: Sheet, c: GridConfig)
  {
    c.offsetX + c.width <= s.width && c.offsetY + c.height <= s.height
  }

  predicate Acceptable(sheet: Option<Sheet>, c: GridConfig)
  {
    InRange(c) && (sheet.Some? ==> FirstFrameFits(sheet.value, c))
  }

  /** `validate_frame_settings`: None when the settings are usable. */
  function ValidateFrameSettings(sheet: Option<Sheet>, c: GridConfig): (r: Option<SettingsError>)
    ensures r.None? <==> Acceptable(sheet, c)
    ensures c.width <= 0 ==> r == Some(WidthNotPositive)
    ensures c.width > 0 && c.height <= 0 ==> r == Some(HeightNotPositive)
    ensures r == Some(ExceedsSheetWidth) ==> sheet.Some? && c.offsetX + c.width > sheet.value.width
    ensures r == Some(ExceedsSheetHeight) ==> sheet.Some? && c.offsetY + c.height > sheet.value.height
  {
    if c.width <= 0 then Some(WidthNotPositive)
    else if c.height <= 0 then Some(HeightNotPositive)
    else if c.width > MAX_FRAME_SIZE then Some(WidthTooLarge)
    else if c.height > MAX_FRAME_SIZE then Some(HeightTooLarge)
    else if c.offsetX < 0 then Some(OffsetXNegative)
    else if c.offsetY < 0 then Some(OffsetYNegative)
    else if c.offsetX > MAX_OFFSET then Some(OffsetXTooLarge)
    else if c.offsetY > MAX_OFFSET then Some(OffsetYTooLarge)
    else if c.spacingX < 0 then Some(SpacingXNegative)
    else if c.spacingY < 0 then Some(SpacingYNegative)
    else if c.spacingX > MAX_SPACING then Some(SpacingXTooLarge)
    else if c.spacingY > MAX_SPACING then Some(SpacingYTooLarge)
    else if sheet.Some? && c.offsetX + c.width > sheet.value.width then Some(ExceedsSheetWidth)
    else if sheet.Some? && c.offsetY + c.height > sheet.value.height then Some(ExceedsSheetHeight)
    else None
  }

  /** The number of cells along one axis, as `_calculate_grid_layout` counts them. */
  function CellsAlong(available: int, size: int, spacing: int): int
    requires spacing > 0 ==> size + spacing != 0
  {
    if spacing > 0 then FloorDiv(available + spacing, size + spacing)
    else if size > 0 then available / size
    else 0
  }

  /** No division by zero can occur in `_calculate_grid_layout`. */
  predicate LayoutDefined(c: GridConfig)
  {
    (c.spacingX > 0 ==> c.width + c.spacingX != 0) &&
    (c.spacingY > 0 ==> c.height + c.spacingY != 0)
  }

  /** `_calculate_grid_layout`. */
  function CalculateGridLayout(availableWidth: int, availableHeight: int, c: GridConfig): GridLayout
    requires LayoutDefined(c)
  {
    var perRow := CellsAlong(availableWidth, c.width, c.spacingX);
    var perCol := CellsAlong(availableHeight, c.height, c.spacingY);
    GridLayout(perRow, perCol, perRow * perCol, availableWidth, availableHeight)
  }

  /**
   * For a positive size and a non-negative spacing, the cell count is the
   * largest n whose n cells and n - 1 gaps fit in the available length.
   */
  lemma CellsAlongIsLargestFit(available: int, size: int, spacing: int)
    requires size > 0 && spacing >= 0 && available >= 0
    ensures var n := CellsAlong(available, size, spacing);
      n >= 0 &&
      n * size + (n - 1) * spacing <= available &&
      available < (n + 1) * size + n * spacing
  {
    var n := CellsAlong(available, size, spacing);
    var step := size + spacing;
    assert n == (available + spacing) / step;
    assert n * step <= available + spacing < n * step + step;
  }

  /** The grid layout's total is the product of its two counts, and both are maximal. */
  lemma GridLayoutCountsFit(s: Sheet, c: GridConfig)
    requires Acceptable(Some(s), c)
    ensures var g := CalculateGridLayout(s.width - c.offsetX, s.height - c.offsetY, c);
      g.framesPerRow >= 1 && g.framesPerCol >= 1 &&
      g.totalFrames == g.framesPerRow * g.framesPerCol &&
      c.offsetX + g.framesPerRow * (c.width + c.spacingX) - c.spacingX <= s.width &&
      c.offsetY + g.framesPerCol * (c.height + c.spacingY) - c.spacingY <= s.height &&
      s.width < c.offsetX + (g.framesPerRow + 1) * (c.width + c.spacingX) - c.spacingX &&
      s.height < c.offsetY + (g.framesPerCol + 1) * (c.height + c.spacingY) - c.spacingY
  {
    AxisFits(c.offsetX, s.width, c.width, c.spacingX);
    AxisFits(c.offsetY, s.height, c.height, c.spacingY);
  }

  /** Along one axis: at least one cell, the cells end inside the sheet, one more would not fit. */
  lemma AxisFits(offset: int, total: int, size: int, spacing: int)
    requires size > 0 && spacing >= 0 && offset >= 0 && offset + size <= total
    ensures var n := CellsAlong(total - offset, size, spacing);
      n >= 1 &&
      offset + n * (size + spacing) - spacing <= total &&
      total < offset + (n + 1) * (size + spacing) - spacing
  {
    var n := CellsAlong(total - offset, size, spacing);
    CellsAlongIsLargestFit(total - offset, size, spacing);
    assert n * (size + spacing) == n * size + n * spacing;
    assert (n + 1) * (size + spacing) == (n + 1) * size + n * spacing + spacing;
  }

  /** `calculate_grid_layout`: None for a missing sheet or invalid settings. */
  function GridLayoutFor(sheet: Option<Sheet>, c: GridConfig): (r: Option<GridLayout>)
    ensures r.Some? <==> sheet.Some? && Acceptable(sheet, c)
    ensures r.Some? ==>
      r.value.totalFrames >= 1 &&
      r.value.availableWidth == sheet.value.width - c.offsetX &&
      r.value.availableHeight == sheet.value.height - c.offsetY
  {
    if sheet.None? then None
    else if ValidateFrameSettings(sheet, c).Some? then None
    else
      var g := CalculateGridLayout(sheet.value.width - c.offsetX, sheet.value.height - c.offsetY, c);
      GridLayoutCountsFit(sheet.value, c);
      assert g.totalFrames >= 1 by {
        assert g.framesPerRow >= 1 && g.framesPerCol >= 1;
      }
      Some(g)
  }

  // ----- Row-major extraction -----

  /** The rectangle of the cell at (row, col). */
  function Cell(c: GridConfig, row: int, col: int): Rect
  {
    Rect(c.offsetX + col * (c.width + c.spacingX), c.offsetY + row * (c.height + c.spacingY), c.width, c.height)
  }

  /** The cells of one row, columns 0 .. cols - 1, keeping only those inside the sheet. */
  function RowFrames(s: Sheet, c: GridConfig, row: int, cols: nat): seq<Rect>
  {
    if cols == 0 then []
    else
      var r := Cell(c, row, cols - 1);
      RowFrames(s, c, row, cols - 1) + (if InsideSheet(r, s.width, s.height) then [r] else [])
  }

  /** Rows 0 .. rows - 1 of cells, row by row, keeping only those inside the sheet. */
  function GridFrames(s: Sheet, c: GridConfig, rows: nat, cols: nat): seq<Rect>
  {
    if rows == 0 then [] else GridFrames(s, c, rows - 1, cols) + RowFrames(s, c, rows - 1, cols)
  }

  lemma {:induction false} RowFramesInside(s: Sheet, c: GridConfig, row: int, cols: nat)
    ensures forall r :: r in RowFrames(s, c, row, cols) ==> InsideSheet(r, s.width, s.height)
  {
    if cols > 0 {
      RowFramesInside(s, c, row, cols - 1);
    }
  }

  lemma ConcatInside(a: seq<Rect>, b: seq<Rect>, s: Sheet)
    requires forall r :: r in a ==> InsideSheet(r, s.width, s.height)
    requires forall r :: r in b ==> InsideSheet(r, s.width, s.height)
    ensures forall r :: r in a + b ==> InsideSheet(r, s.width, s.height)
  {
  }

  /** Extraction never emits a rectangle reaching past the sheet edge. */
  lemma {:induction false} GridFramesInside(s: Sheet, c: GridConfig, rows: nat, cols: nat)
    ensures forall r :: r in GridFrames(s, c, rows, cols) ==> InsideSheet(r, s.width, s.height)
  {
    if rows > 0 {
      GridFramesInside(s, c, rows - 1, cols);
      RowFramesInside(s, c, rows - 1, cols);
      ConcatInside(GridFrames(s, c, rows - 1, cols), RowFrames(s, c, rows - 1, cols), s);
    }
  }

  /** When every cell of the row is inside the sheet, the row is complete and in column order. */
  lemma {:induction false} RowFramesComplete(s: Sheet, c: GridConfig, row: int, cols: nat)
    requires forall col :: 0 <= col < cols ==> InsideSheet(Cell(c, row, col), s.width, s.height)
    ensures |RowFrames(s, c, row, cols)| == cols
    ensures forall col :: 0 <= col < cols ==> RowFrames(s, c, row, cols)[col] == Cell(c, row, col)
  {
    if cols > 0 {
      RowFramesComplete(s, c, row, cols - 1);
    }
  }

  /** When every cell is inside the sheet, the frames are exactly the cells in row-major order. */
  lemma {:induction false} GridFramesComplete(s: Sheet, c: GridConfig, rows: nat, cols: nat)
    requires forall row, col :: 0 <= row < rows && 0 <= col < cols ==>
      InsideSheet(Cell(c, row, col), s.width, s.height)
    ensures |GridFrames(s, c, rows, cols)| == rows * cols
    ensures forall k :: 0 <= k < rows * cols ==> GridFrames(s, c, rows, cols)[k] == Cell(c, k / cols, k % cols)
  {
    if rows > 0 {
      GridFramesComplete(s, c, rows - 1, cols);
      RowFramesComplete(s, c, rows - 1, cols);
      RowMajorAppend(GridFrames(s, c, rows - 1, cols), RowFrames(s, c, rows - 1, cols), c, rows - 1, cols);
    }
  }

  /** Appending row `row` of cells to the first `row` rows in row-major order gives the first row + 1 rows. */
  lemma RowMajorAppend(prev: seq<Rect>, last: seq<Rect>, c: GridConfig, row: nat, cols: nat)
    requires |prev| == row * cols && |last| == cols
    requires forall k :: 0 <= k < row * cols ==> prev[k] == Cell(c, k / cols, k % cols)
    requires forall col :: 0 <= col < cols ==> last[col] == Cell(c, row, col)
    ensures |prev + last| == (row + 1) * cols
    ensures forall k :: 0 <= k < (row + 1) * cols ==> (prev + last)[k] == Cell(c, k / cols, k % cols)
  {
    assert (row + 1) * cols == row * cols + cols;
    forall k | 0 <= k < (row + 1) * cols
      ensures (prev + last)[k] == Cell(c, k / cols, k % cols)
    {
      if k >= row * cols {
        var col := k - row * cols;
        DivModOfRowMajor(row, col, cols);
        assert k == row * cols + col;
      }
    }
  }

  lemma DivModOfRowMajor(row: nat, col: nat, cols: nat)
    requires col < cols
    ensures (row * cols + col) / cols == row && (row * cols + col) % cols == col
  {
    var k := row * cols + col;
    var d, m := k / cols, k % cols;
    assert k == d * cols + m;
    assert (d - row) * cols == col - m;
    if d > row {
      MulMonotone(1, d - row, cols);
      assert false;
    }
    if d < row {
      MulMonotone(1, row - d, cols);
      assert false;
    }
  }

  /** With usable settings every cell of the computed grid is inside the sheet. */
  lemma ValidGridCellsInside(s: Sheet, c: GridConfig)
    requires Acceptable(Some(s), c)
    ensures var g := CalculateGridLayout(s.width - c.offsetX, s.height - c.offsetY, c);
      forall row, col :: 0 <= row < g.framesPerCol && 0 <= col < g.framesPerRow ==>
        InsideSheet(Cell(c, row, col), s.width, s.height)
  {
    GridLayoutCountsFit(s, c);
    var g := CalculateGridLayout(s.width - c.offsetX, s.height - c.offsetY, c);
    forall row, col | 0 <= row < g.framesPerCol && 0 <= col < g.framesPerRow
      ensures InsideSheet(Cell(c, row, col), s.width, s.height)
    {
      CellWithinCount(c.offsetX, c.width, c.spacingX, col, g.framesPerRow, s.width);
      CellWithinCount(c.offsetY, c.height, c.spacingY, row, g.framesPerCol, s.height);
    }
  }

  /** The cell at index i < n along one axis ends within the length the n cells occupy. */
  lemma CellWithinCount(offset: int, size: int, spacing: int, i: int, n: int, limit: int)
    requires offset >= 0 && size > 0 && spacing >= 0 && 0 <= i < n
    requires offset + n * (size + spacing) - spacing <= limit
    ensures offset + i * (size + spacing) >= 0
    ensures offset + i * (size + spacing) + size <= limit
  {
    MulMonotone(i, n - 1, size + spacing);
    MulMonotone(0, i, size + spacing);
    assert (n - 1) * (size + spacing) + size == n * (size + spacing) - spacing;
  }

  lemma MulMonotone(a: int, b: int, k: int)
    requires 0 <= a <= b && k >= 0
    ensures a * k <= b * k
  {
  }

  /** The source's bounds test agrees with InsideSheet once offsets and spacings are non-negative. */
  lemma CellTest(s: Sheet, c: GridConfig, row: nat, col: nat)
    requires InRange(c)
    ensures var r := Cell(c, row, col);
      InsideSheet(r, s.width, s.height) <==> r.x + c.width <= s.width && r.y + c.height <= s.height
  {
    MulMonotone(0, col, c.width + c.spacingX);
    MulMonotone(0, row, c.height + c.spacingY);
  }

  /**
   * `extract_grid_frames`: walks the grid row by row and column by column,
   * keeping each cell that lies wholly inside the sheet.
   */
  method ExtractGridFrames(sheet: Option<Sheet>, c: GridConfig) returns (r: Result<seq<Rect>, ExtractError>)
    ensures sheet.None? ==> r == Err(NoSheet)
    ensures sheet.Some? && !Acceptable(sheet, c) ==> r == Err(Invalid(ValidateFrameSettings(sheet, c).value))
    ensures r.Ok? <==> sheet.Some? && Acceptable(sheet, c)
    ensures r.Ok? ==>
      var g := CalculateGridLayout(sheet.value.width - c.offsetX, sheet.value.height - c.offsetY, c);
      |r.value| == g.totalFrames &&
      forall k :: 0 <= k < |r.value| ==> r.value[k] == Cell(c, k / g.framesPerRow, k % g.framesPerRow)
    ensures r.Ok? ==> forall f :: f in r.value ==> InsideSheet(f, sheet.value.width, sheet.value.height)
  {
    if sheet.None? {
      return Err(NoSheet);
    }
    var invalid := ValidateFrameSettings(sheet, c);
    if invalid.Some? {
      return Err(Invalid(invalid.value));
    }
    var s := sheet.value;
    var layout := CalculateGridLayout(s.width - c.offsetX, s.height - c.offsetY, c);
    GridLayoutCountsFit(s, c);
    var rows: nat := layout.framesPerCol;
    var cols: nat := layout.framesPerRow;
    var frames: seq<Rect> := [];
    var row := 0;
    while row < rows
      invariant 0 <= row <= rows
      invariant frames == GridFrames(s, c, row, cols)
    {
      var cells := ExtractRow(s, c, row, cols);
      assert GridFrames(s, c, row + 1, cols) == GridFrames(s, c, row, cols) + RowFrames(s, c, row, cols);
      frames := frames + cells;
      row := row + 1;
    }
    GridFramesSpec(s, c);
    return Ok(frames);
  }

  /** The inner loop of `_extract_grid_frames`: the cells of one row that fit inside the sheet. */
  method ExtractRow(s: Sheet, c: GridConfig, row: nat, cols: nat) returns (cells: seq<Rect>)
    requires InRange(c)
    ensures cells == RowFrames(s, c, row, cols)
  {
    cells := [];
    var col := 0;
    while col < cols
      invariant 0 <= col <= cols
      invariant cells == RowFrames(s, c, row, col)
    {
      assert RowFrames(s, c, row, col + 1) ==
        RowFrames(s, c, row, col) + (if InsideSheet(Cell(c, row, col), s.width, s.height) then [Cell(c, row, col)] else []);
      var x := c.offsetX + col * (c.width + c.spacingX);
      var y := c.offsetY + row * (c.height + c.spacingY);
      CellTest(s, c, row, col);
      if x + c.width <= s.width && y + c.height <= s.height {
        cells := cells + [Rect(x, y, c.width, c.height)];
      }
      col := col + 1;
    }
  }

  /** With usable settings the grid's frames are all its cells, in row-major order, inside the sheet. */
  lemma GridFramesSpec(s: Sheet, c: GridConfig)
    requires Acceptable(Some(s), c)
    ensures var g := CalculateGridLayout(s.width - c.offsetX, s.height - c.offsetY, c);
      g.framesPerCol >= 1 && g.framesPerRow >= 1 &&
      var frames := GridFrames(s, c, g.framesPerCol, g.framesPerRow);
      |frames| == g.totalFrames &&
      (forall k :: 0 <= k < |frames| ==> frames[k] == Cell(c, k / g.framesPerRow, k % g.framesPerRow)) &&
      (forall f :: f in frames ==> InsideSheet(f, s.width, s.height))
  {
    var g := CalculateGridLayout(s.width - c.offsetX, s.height - c.offsetY, c);
    GridLayoutCountsFit(s, c);
    ValidGridCellsInside(s, c);
    GridFramesComplete(s, c, g.framesPerCol, g.framesPerRow);
    GridFramesInside(s, c, g.framesPerCol, g.framesPerRow);
  }

  // ----- Merging nearby connected components -----

  /** The centre `_merge_nearby_components` compares: x + w // 2, y + h // 2. */
  function CentreX(r: Rect): int { r.x + r.w / 2 }
  function CentreY(r: Rect): int { r.y + r.h / 2 }

  /**
   * The Euclidean distance between the centres is at most `threshold`; for a
   * positive integer threshold this is the same as comparing squares.
   */
  predicate Near(a: Rect, b: Rect, threshold: int)
  {
    var dx := CentreX(a) - CentreX(b);
    var dy := CentreY(a) - CentreY(b);
    dx * dx + dy * dy <= threshold * threshold
  }

  function Min(a: int, b: int): int { if a <= b then a else b }
  function Max(a: int, b: int): int { if a >= b then a else b }

  /** The bounding box of a non-empty list of boxes, as lines 588-592 compute it. */
  function Hull(boxes: seq<Rect>): Rect
    requires |boxes| > 0
  {
    if |boxes| == 1 then boxes[0]
    else
      var rest := Hull(boxes[1..]);
      var b := boxes[0];
      var left := Min(b.x, rest.x);
      var top := Min(b.y, rest.y);
      var right := Max(b.x + b.w, rest.x + rest.w);
      var bottom := Max(b.y + b.h, rest.y + rest.h);
      Rect(left, top, right - left, bottom - top)
  }

  /** The hull encloses every box it was built from. */
  lemma {:induction false} HullEncloses(boxes: seq<Rect>)
    requires |boxes| > 0
    ensures forall k :: 0 <= k < |boxes| ==> Encloses(Hull(boxes), boxes[k])
  {
    if |boxes| > 1 {
      HullEncloses(boxes[1..]);
      forall k | 0 <= k < |boxes|
        ensures Encloses(Hull(boxes), boxes[k])
      {
        if k > 0 {
          assert boxes[k] == boxes[1..][k - 1];
        }
      }
    }
  }

  /** Each edge of the hull is an edge of one of its boxes, so no smaller box encloses them all. */
  lemma {:induction false} HullTight(boxes: seq<Rect>)
    requires |boxes| > 0
    ensures exists k :: 0 <= k < |boxes| && boxes[k].x == Hull(boxes).x
    ensures exists k :: 0 <= k < |boxes| && boxes[k].y == Hull(boxes).y
    ensures exists k :: 0 <= k < |boxes| && boxes[k].x + boxes[k].w == Hull(boxes).x + Hull(boxes).w
    ensures exists k :: 0 <= k < |boxes| && boxes[k].y + boxes[k].h == Hull(boxes).y + Hull(boxes).h
  {
    if |boxes| > 1 {
      HullTight(boxes[1..]);
      var rest := boxes[1..];
      var k1 :| 0 <= k1 < |rest| && rest[k1].x == Hull(rest).x;
      var k2 :| 0 <= k2 < |rest| && rest[k2].y == Hull(rest).y;
      var k3 :| 0 <= k3 < |rest| && rest[k3].x + rest[k3].w == Hull(rest).x + Hull(rest).w;
      var k4 :| 0 <= k4 < |rest| && rest[k4].y + rest[k4].h == Hull(rest).y + Hull(rest).h;
      var h, b := Hull(boxes), boxes[0];
      assert boxes[k1 + 1] == rest[k1] && boxes[k2 + 1] == rest[k2];
      assert boxes[k3 + 1] == rest[k3] && boxes[k4 + 1] == rest[k4];
      if b.x <= Hull(rest).x { assert boxes[0].x == h.x; } else { assert boxes[k1 + 1].x == h.x; }
      if b.y <= Hull(rest).y { assert boxes[0].y == h.y; } else { assert boxes[k2 + 1].y == h.y; }
      if b.x + b.w >= Hull(rest).x + Hull(rest).w {
        assert boxes[0].x + boxes[0].w == h.x + h.w;
      } else {
        assert boxes[k3 + 1].x + boxes[k3 + 1].w == h.x + h.w;
      }
      if b.y + b.h >= Hull(rest).y + Hull(rest).h {
        assert boxes[0].y + boxes[0].h == h.y + h.h;
      } else {
        assert boxes[k4 + 1].y + boxes[k4 + 1].h == h.y + h.h;
      }
    } else {
      assert boxes[0] == Hull(boxes);
    }
  }

  /** The boxes a group of indices names. */
  function Members(bounds: seq<Rect>, group: seq<nat>): (r: seq<Rect>)
    requires forall k :: 0 <= k < |group| ==> group[k] < |bounds|
    ensures |r| == |group|
  {
    seq(|group|, k requires 0 <= k < |group| => bounds[group[k]])
  }

  /** One merge group: its seed first, every other member near the seed, all indices in range. */
  ghost predicate GroupWellFormed(bounds: seq<Rect>, threshold: int, group: seq<nat>)
  {
    |group| > 0 &&
    (forall k :: 0 <= k < |group| ==> group[k] < |bounds|) &&
    (forall k :: 1 <= k < |group| ==> Near(bounds[group[0]], bounds[group[k]], threshold))
  }

  /** Some output box encloses r. */
  ghost predicate EnclosedBySome(merged: seq<Rect>, r: Rect)
  {
    exists g :: 0 <= g < |merged| && Encloses(merged[g], r)
  }

  ghost function Indices(groups: seq<seq<nat>>): set<nat>
  {
    set g, m | 0 <= g < |groups| && m in groups[g] :: m
  }

  /**
   * `_merge_nearby_components`: with a non-positive threshold the boxes come
   * back unchanged; otherwise each unused box seeds a group that takes every
   * still unused box whose centre is within the threshold of the seed's, and
   * the group is replaced by its bounding box. `groups` records which input
   * boxes each output box was built from.
   */
  method MergeNearbyComponents(bounds: seq<Rect>, threshold: int)
    returns (merged: seq<Rect>, ghost groups: seq<seq<nat>>)
    ensures threshold <= 0 ==> merged == bounds
    ensures threshold > 0 ==> |merged| <= |bounds|
    ensures threshold > 0 ==> forall k :: 0 <= k < |bounds| ==> EnclosedBySome(merged, bounds[k])
    ensures threshold > 0 ==>
      MergedFrom(bounds, threshold, groups, merged) &&
      (forall k :: 0 <= k < |bounds| ==> k in Indices(groups)) &&
      Greedy(bounds, threshold, groups)
  {
    if threshold <= 0 {
      return bounds, [];
    }
    var n := |bounds|;
    var used: set<nat> := {};
    merged, groups := [], [];
    var i := 0;
    while i < n
      invariant 0 <= i <= n
      invariant |merged| <= i
      invariant used == Indices(groups)
      invariant forall k: nat :: k < i ==> k in used
      invariant MergedFrom(bounds, threshold, groups, merged)
      invariant Greedy(bounds, threshold, groups)
    {
      if i !in used {
        var group;
        group, used := GrowGroup(bounds, threshold, i, used);
        var box := Hull(Members(bounds, group));
        GreedyStep(bounds, threshold, groups, group);
        AddGroup(bounds, threshold, groups, merged, group);
        merged, groups := merged + [box], groups + [group];
      }
      i := i + 1;
    }
    HullsCover(bounds, threshold, groups, merged);
  }

  /**
   * The inner loop of `_merge_nearby_components`: seeded with box `seed`, takes
   * every box not yet used whose centre is near the seed's, marking each used.
   */
  method GrowGroup(bounds: seq<Rect>, threshold: int, seed: nat, usedBefore: set<nat>)
    returns (group: seq<nat>, used: set<nat>)
    requires seed < |bounds| && seed !in usedBefore
    ensures GroupWellFormed(bounds, threshold, group) && group[0] == seed
    ensures used == usedBefore + set m | m in group
    ensures forall m :: m in group ==> m !in usedBefore
    ensures TakesAllNear(bounds, threshold, seed, usedBefore, group, |bounds|)
  {
    group := [seed];
    used := usedBefore + {seed};
    var j := 0;
    while j < |bounds|
      invariant 0 <= j <= |bounds|
      invariant GroupWellFormed(bounds, threshold, group) && group[0] == seed
      invariant used == usedBefore + set m | m in group
      invariant forall m :: m in group ==> m !in usedBefore
      invariant TakesAllNear(bounds, threshold, seed, usedBefore, group, j)
    {
      if j !in used && Near(bounds[seed], bounds[j], threshold) {
        group := group + [j];
        used := used + {j};
      }
      j := j + 1;
    }
  }

  /** Every box below `upTo` that was unused and is near the seed is in the group. */
  ghost predicate TakesAllNear(bounds: seq<Rect>, threshold: int, seed: nat, usedBefore: set<nat>, group: seq<nat>,
                               upTo: int)
    requires seed < |bounds|
  {
    forall k :: 0 <= k < upTo && k < |bounds| && k !in usedBefore && Near(bounds[seed], bounds[k], threshold) ==>
      k in group
  }

  /**
   * How the source picks a group after the groups `earlier`: its seed is the
   * first box no earlier group holds, and it takes every box no earlier
   * group holds whose centre is near the seed's.
   */
  ghost predicate GroupSeeded(bounds: seq<Rect>, threshold: int, earlier: seq<seq<nat>>, group: seq<nat>)
  {
    |group| > 0 && group[0] < |bounds| &&
    (forall k :: 0 <= k < group[0] ==> k in Indices(earlier)) &&
    TakesAllNear(bounds, threshold, group[0], Indices(earlier), group, |bounds|)
  }

  /** Every group was picked greedily, in seed order, from the boxes the groups before it left. */
  ghost predicate Greedy(bounds: seq<Rect>, threshold: int, groups: seq<seq<nat>>)
  {
    forall g :: 0 <= g < |groups| ==> GroupSeeded(bounds, threshold, groups[..g], groups[g])
  }

  /** No box is left out of a group while near its seed: a box near the seed of group g is in g or an earlier group. */
  lemma NearSeedGrouped(bounds: seq<Rect>, threshold: int, groups: seq<seq<nat>>, g: int, k: nat)
    requires Greedy(bounds, threshold, groups) && 0 <= g < |groups| && k < |bounds|
    requires Near(bounds[groups[g][0]], bounds[k], threshold)
    ensures k in Indices(groups[..g + 1])
  {
    assert GroupSeeded(bounds, threshold, groups[..g], groups[g]);
    SeededTakes(bounds, threshold, groups[..g], groups[g], k);
    assert groups[..g + 1] == groups[..g] + [groups[g]];
  }

  lemma SeededTakes(bounds: seq<Rect>, threshold: int, earlier: seq<seq<nat>>, group: seq<nat>, k: nat)
    requires GroupSeeded(bounds, threshold, earlier, group) && k < |bounds|
    requires Near(bounds[group[0]], bounds[k], threshold)
    ensures k in Indices(earlier + [group])
  {
    Extend(earlier, group);
  }

  lemma GreedyStep(bounds: seq<Rect>, threshold: int, groups: seq<seq<nat>>, group: seq<nat>)
    requires Greedy(bounds, threshold, groups) && GroupSeeded(bounds, threshold, groups, group)
    ensures Greedy(bounds, threshold, groups + [group])
  {
    var all := groups + [group];
    forall g | 0 <= g < |all|
      ensures GroupSeeded(bounds, threshold, all[..g], all[g])
    {
      if g < |groups| {
        assert all[..g] == groups[..g] && all[g] == groups[g];
      } else {
        assert all[..g] == groups;
      }
    }
  }

  /**
   * What the merge has built so far: one output box per group, each group
   * well formed and replaced by its hull, no box in two groups, and every
   * grouped index naming an input box.
   */
  ghost predicate MergedFrom(bounds: seq<Rect>, threshold: int, groups: seq<seq<nat>>, merged: seq<Rect>)
  {
    |groups| == |merged| &&
    (forall g :: 0 <= g < |groups| ==> GroupWellFormed(bounds, threshold, groups[g])) &&
    (forall g :: 0 <= g < |groups| ==> merged[g] == Hull(Members(bounds, groups[g]))) &&
    (forall g1, g2, m :: 0 <= g1 < g2 < |groups| && m in groups[g1] ==> m !in groups[g2]) &&
    (forall m :: m in Indices(groups) ==> m < |bounds|)
  }

  /** Adding a well-formed group of fresh indices, with its hull, keeps the merge state. */
  lemma AddGroup(bounds: seq<Rect>, threshold: int, groups: seq<seq<nat>>, merged: seq<Rect>, group: seq<nat>)
    requires MergedFrom(bounds, threshold, groups, merged)
    requires GroupWellFormed(bounds, threshold, group)
    requires forall m :: m in group ==> m !in Indices(groups)
    ensures MergedFrom(bounds, threshold, groups + [group], merged + [Hull(Members(bounds, group))])
    ensures Indices(groups + [group]) == Indices(groups) + set m | m in group
  {
    Extend(groups, group);
    var all := groups + [group];
    forall g1, g2, m | 0 <= g1 < g2 < |all| && m in all[g1]
      ensures m !in all[g2]
    {
      if g2 == |groups| {
        assert m in groups[g1];
        assert m in Indices(groups);
      }
    }
  }

  /** When the groups cover every box, every box lies inside the hull of its group. */
  lemma HullsCover(bounds: seq<Rect>, threshold: int, groups: seq<seq<nat>>, merged: seq<Rect>)
    requires MergedFrom(bounds, threshold, groups, merged)
    requires forall k :: 0 <= k < |bounds| ==> k in Indices(groups)
    ensures forall k :: 0 <= k < |bounds| ==> EnclosedBySome(merged, bounds[k])
  {
    forall k | 0 <= k < |bounds|
      ensures EnclosedBySome(merged, bounds[k])
    {
      assert k in Indices(groups);
      var g, m :| 0 <= g < |groups| && m in groups[g] && m == k;
      var members := Members(bounds, groups[g]);
      HullEncloses(members);
      var p :| 0 <= p < |groups[g]| && groups[g][p] == k;
      assert members[p] == bounds[k];
      assert Encloses(merged[g], bounds[k]);
    }
  }

  lemma Extend(groups: seq<seq<nat>>, group: seq<nat>)
    ensures Indices(groups + [group]) == Indices(groups) + set m | m in group
  {
    var all := groups + [group];
    forall m | m in Indices(all)
      ensures m in Indices(groups) + set x | x in group
    {
      var g :| 0 <= g < |all| && m in all[g];
      if g < |groups| {
        assert m in groups[g];
      }
    }
    forall m | m in Indices(groups) + set x | x in group
      ensures m in Indices(all)
    {
      if m in Indices(groups) {
        var g :| 0 <= g < |groups| && m in groups[g];
        assert m in all[g];
      } else {
        assert m in all[|groups|];
      }
    }
  }

  // ----- Grouping sprite centres into grid lines (nested in `_analyze_ccl_results`) -----

  predicate StrictlyIncreasing(s: seq<int>)
  {
    forall i, j :: 0 <= i < j < |s| ==> s[i] < s[j]
  }

  /** Inserts x into a strictly increasing list, dropping it when already present. */
  function InsertDistinct(sorted: seq<int>, x: int): (r: seq<int>)
    requires StrictlyIncreasing(sorted)
    ensures StrictlyIncreasing(r)
    ensures forall y :: y in r <==> y in sorted || y == x
    ensures |r| <= |sorted| + 1
  {
    if |sorted| == 0 then [x]
    else if x < sorted[0] then [x] + sorted
    else if x == sorted[0] then sorted
    else
      var rest := InsertDistinct(sorted[1..], x);
      assert forall i :: 0 <= i < |rest| ==> sorted[0] < rest[i] by {
        forall i | 0 <= i < |rest|
          ensures sorted[0] < rest[i]
        {
          assert rest[i] in rest;
          if rest[i] != x {
            var j :| 0 <= j < |sorted[1..]| && sorted[1..][j] == rest[i];
            assert sorted[j + 1] == rest[i];
          }
        }
      }
      [sorted[0]] + rest
  }

  /** `sorted(set(positions))`. */
  function SortedDistinct(positions: seq<int>): (r: seq<int>)
    ensures StrictlyIncreasing(r)
    ensures forall y :: y in r <==> y in positions
    ensures |r| <= |positions|
  {
    if |positions| == 0 then []
    else InsertDistinct(SortedDistinct(positions[..|positions| - 1]), positions[|positions| - 1])
  }

  function Sum(s: seq<int>): int
  {
    if |s| == 0 then 0 else Sum(s[..|s| - 1]) + s[|s| - 1]
  }

  /** The floor mean of a non-empty increasing run lies between its first and last values. */
  lemma {:induction false} SumBounds(s: seq<int>)
    requires |s| > 0
    requires forall i, j :: 0 <= i <= j < |s| ==> s[i] <= s[j]
    ensures |s| * s[0] <= Sum(s) <= |s| * s[|s| - 1]
  {
    if |s| > 1 {
      var init := s[..|s| - 1];
      var n := |s|;
      SumBounds(init);
      assert init[0] == s[0] && init[|init| - 1] == s[n - 2];
      assert Sum(s) == Sum(init) + s[n - 1];
      assert s[0] <= s[n - 2] <= s[n - 1];
      assert n * s[0] == (n - 1) * s[0] + s[0];
      assert n * s[n - 1] == (n - 1) * s[n - 1] + s[n - 1];
      ScaleMonotone(s[0], s[n - 2], n - 1);
      ScaleMonotone(s[n - 2], s[n - 1], n - 1);
    }
  }

  lemma ScaleMonotone(a: int, b: int, k: nat)
    requires a <= b
    ensures k * a <= k * b
  {
    assert k * b - k * a == k * (b - a);
  }

  lemma MeanBetween(s: seq<int>)
    requires |s| > 0
    requires forall i, j :: 0 <= i <= j < |s| ==> s[i] <= s[j]
    ensures s[0] <= Sum(s) / |s| <= s[|s| - 1]
  {
    SumBounds(s);
    FloorMeanBetween(Sum(s), |s|, s[0], s[|s| - 1]);
  }

  lemma FloorMeanBetween(total: int, n: int, lo: int, hi: int)
    requires n > 0 && n * lo <= total <= n * hi
    ensures lo <= total / n <= hi
  {
    var q := total / n;
    assert q * n <= total < q * n + n;
    if q < lo {
      MulMonotone(q + 1, lo, n);
      assert false;
    }
    if q > hi {
      MulMonotone(hi + 1, q, n);
      assert false;
    }
  }

  /** The groups concatenated in order. */
  function Concat(groups: seq<seq<int>>): seq<int>
  {
    if |groups| == 0 then [] else Concat(groups[..|groups| - 1]) + groups[|groups| - 1]
  }

  /**
   * A split of `sorted` at every gap above the tolerance: non-empty
   * ascending groups that concatenate back to `sorted`, consecutive members
   * of a group at most `tolerance` apart, and each group ending more than
   * `tolerance` before the next one begins.
   */
  ghost predicate SplitAtGaps(sorted: seq<int>, groups: seq<seq<int>>, tolerance: int)
  {
    Concat(groups) == sorted && Runs(groups, tolerance) &&
    (forall g, x :: 0 <= g < |groups| && x in groups[g] ==> x in sorted)
  }

  /** The shape of the groups alone: non-empty, ascending, close within and apart between. */
  ghost predicate Runs(groups: seq<seq<int>>, tolerance: int)
  {
    (forall g :: 0 <= g < |groups| ==> |groups[g]| > 0) &&
    (forall g, i, j :: 0 <= g < |groups| && 0 <= i <= j < |groups[g]| ==> groups[g][i] <= groups[g][j]) &&
    (forall g, i :: 0 <= g < |groups| && 0 <= i < |groups[g]| - 1 ==> groups[g][i + 1] - groups[g][i] <= tolerance) &&
    (forall g :: 0 <= g < |groups| - 1 ==> groups[g][|groups[g]| - 1] + tolerance < groups[g + 1][0])
  }

  /**
   * The loop of lines 634-639 on a sorted list: each position joins the
   * last group when it lies within `tolerance` of that group's last
   * position, and opens a new group otherwise.
   */
  function Grouped(sorted: seq<int>, tolerance: int): (r: seq<seq<int>>)
    ensures forall g :: 0 <= g < |r| ==> |r[g]| > 0
  {
    if |sorted| == 0 then []
    else
      var groups := Grouped(sorted[..|sorted| - 1], tolerance);
      var pos := sorted[|sorted| - 1];
      if |groups| > 0 && pos - groups[|groups| - 1][|groups[|groups| - 1]| - 1] <= tolerance
      then groups[..|groups| - 1] + [groups[|groups| - 1] + [pos]]
      else groups + [[pos]]
  }

  /** `[sum(group) // len(group) for group in groups]`. */
  function Means(groups: seq<seq<int>>): seq<int>
    requires forall g :: 0 <= g < |groups| ==> |groups[g]| > 0
  {
    seq(|groups|, k requires 0 <= k < |groups| => Sum(groups[k]) / |groups[k]|)
  }

  /** c lies between two of the positions. */
  ghost predicate BetweenTwoOf(positions: seq<int>, c: int)
  {
    exists a, b :: a in positions && b in positions && a <= c <= b
  }

  /** Appending a close position to the last group keeps the shape of the groups. */
  lemma ExtendRuns(groups: seq<seq<int>>, tolerance: int, pos: int, next: seq<seq<int>>)
    requires |groups| > 0 && Runs(groups, tolerance)
    requires groups[|groups| - 1][|groups[|groups| - 1]| - 1] < pos
    requires pos - groups[|groups| - 1][|groups[|groups| - 1]| - 1] <= tolerance
    requires next == groups[..|groups| - 1] + [groups[|groups| - 1] + [pos]]
    ensures Runs(next, tolerance)
  {
    var n := |groups| - 1;
    var last := groups[n];
    assert forall g :: 0 <= g < n ==> next[g] == groups[g];
    assert next[n] == last + [pos];
    forall g, i, j | 0 <= g < |next| && 0 <= i <= j < |next[g]|
      ensures next[g][i] <= next[g][j]
    {
      if g == n && j == |last| && i < |last| {
        assert next[g][i] == last[i] <= last[|last| - 1];
      }
    }
    forall g, i | 0 <= g < |next| && 0 <= i < |next[g]| - 1
      ensures next[g][i + 1] - next[g][i] <= tolerance
    {
      if g == n && i == |last| - 1 {
        assert next[g][i] == last[|last| - 1] && next[g][i + 1] == pos;
      }
    }
  }

  /** A position within the tolerance of the last group's end joins that group, and the split is kept. */
  lemma ExtendLastGroup(sorted: seq<int>, groups: seq<seq<int>>, tolerance: int, pos: int, next: seq<seq<int>>)
    requires |groups| > 0 && SplitAtGaps(sorted, groups, tolerance)
    requires groups[|groups| - 1][|groups[|groups| - 1]| - 1] < pos
    requires pos - groups[|groups| - 1][|groups[|groups| - 1]| - 1] <= tolerance
    requires next == groups[..|groups| - 1] + [groups[|groups| - 1] + [pos]]
    ensures SplitAtGaps(sorted + [pos], next, tolerance)
    ensures |next| == |groups|
    ensures next[|next| - 1][|next[|next| - 1]| - 1] == pos
  {
    var n := |groups| - 1;
    var last := groups[n];
    ExtendRuns(groups, tolerance, pos, next);
    assert next[n] == last + [pos];
    assert next[..n] == groups[..n];
    assert Concat(next) == Concat(groups[..n]) + (last + [pos]);
    assert Concat(groups) == Concat(groups[..n]) + last;
    forall g, x | 0 <= g < |next| && x in next[g]
      ensures x in sorted + [pos]
    {
      if g < n {
        assert next[g] == groups[g];
      } else if x != pos {
        assert x in last;
      }
    }
  }

  /** A position more than `tolerance` past the last group's end opens a new group, and the split is kept. */
  lemma StartNewGroup(sorted: seq<int>, groups: seq<seq<int>>, tolerance: int, pos: int, next: seq<seq<int>>)
    requires |groups| > 0 && SplitAtGaps(sorted, groups, tolerance)
    requires groups[|groups| - 1][|groups[|groups| - 1]| - 1] + tolerance < pos
    requires next == groups + [[pos]]
    ensures SplitAtGaps(sorted + [pos], next, tolerance)
    ensures |next| == |groups| + 1
    ensures next[|next| - 1][|next[|next| - 1]| - 1] == pos
  {
    assert forall g :: 0 <= g < |groups| ==> next[g] == groups[g];
    assert next[..|groups|] == groups;
  }

  /** The first position opens the first group. */
  lemma FirstGroup(pos: int, tolerance: int, next: seq<seq<int>>)
    requires next == [[pos]]
    ensures SplitAtGaps([pos], next, tolerance)
  {
    assert next[..0] == [];
  }

  /** One more position, as the loop's body places it. */
  lemma GroupedSnoc(init: seq<int>, pos: int, tolerance: int)
    ensures var groups := Grouped(init, tolerance);
      if |groups| > 0 && pos - groups[|groups| - 1][|groups[|groups| - 1]| - 1] <= tolerance
      then Grouped(init + [pos], tolerance) == groups[..|groups| - 1] + [groups[|groups| - 1] + [pos]]
      else Grouped(init + [pos], tolerance) == groups + [[pos]]
  {
    assert (init + [pos])[..|init|] == init;
  }

  /** Grouping one more, larger position keeps the split and ends at that position. */
  lemma GroupedStep(init: seq<int>, pos: int, tolerance: int)
    requires var groups := Grouped(init, tolerance);
      SplitAtGaps(init, groups, tolerance) && (|groups| == 0 <==> |init| == 0) &&
      (|init| > 0 ==> init[|init| - 1] < pos && groups[|groups| - 1][|groups[|groups| - 1]| - 1] == init[|init| - 1])
    ensures var groups := Grouped(init + [pos], tolerance);
      SplitAtGaps(init + [pos], groups, tolerance) && 0 < |groups| <= |Grouped(init, tolerance)| + 1 &&
      groups[|groups| - 1][|groups[|groups| - 1]| - 1] == pos
  {
    var groups := Grouped(init, tolerance);
    var next := Grouped(init + [pos], tolerance);
    GroupedSnoc(init, pos, tolerance);
    if |groups| == 0 {
      assert init + [pos] == [pos];
      FirstGroup(pos, tolerance, next);
    } else {
      var last := groups[|groups| - 1];
      if pos - last[|last| - 1] <= tolerance {
        ExtendLastGroup(init, groups, tolerance, pos, next);
      } else {
        StartNewGroup(init, groups, tolerance, pos, next);
      }
    }
  }

  /** The loop's groups split the sorted positions at exactly the gaps above the tolerance. */
  lemma {:induction false} GroupedSplits(sorted: seq<int>, tolerance: int)
    requires StrictlyIncreasing(sorted)
    ensures var groups := Grouped(sorted, tolerance);
      SplitAtGaps(sorted, groups, tolerance) && |groups| <= |sorted| && (|groups| == 0 <==> |sorted| == 0) &&
      (|sorted| > 0 ==> groups[|groups| - 1][|groups[|groups| - 1]| - 1] == sorted[|sorted| - 1])
  {
    if |sorted| > 0 {
      var init := sorted[..|sorted| - 1];
      var pos := sorted[|sorted| - 1];
      assert sorted == init + [pos];
      GroupedSplits(init, tolerance);
      GroupedStep(init, pos, tolerance);
    }
  }

  /** The grouping loop: the groups `Grouped` describes. */
  method SplitSorted(sorted: seq<int>, tolerance: int) returns (groups: seq<seq<int>>)
    requires |sorted| > 0 && StrictlyIncreasing(sorted)
    ensures groups == Grouped(sorted, tolerance)
    ensures 1 <= |groups| <= |sorted|
    ensures SplitAtGaps(sorted, groups, tolerance)
  {
    groups := [[sorted[0]]];
    assert sorted[..1][..0] == [];
    var i := 1;
    while i < |sorted|
      invariant 1 <= i <= |sorted|
      invariant groups == Grouped(sorted[..i], tolerance)
      invariant |groups| >= 1
    {
      var pos := sorted[i];
      var last := groups[|groups| - 1];
      assert sorted[..i + 1][..i] == sorted[..i] && sorted[..i + 1][i] == pos;
      if pos - last[|last| - 1] <= tolerance {
        groups := groups[..|groups| - 1] + [last + [pos]];
      } else {
        groups := groups + [[pos]];
      }
      i := i + 1;
    }
    assert sorted[..|sorted|] == sorted;
    GroupedSplits(sorted, tolerance);
  }

  /** The floor mean of each group, each between the group's first and last position. */
  method GroupMeans(groups: seq<seq<int>>) returns (centres: seq<int>)
    requires forall g :: 0 <= g < |groups| ==> |groups[g]| > 0
    requires forall g, i, j :: 0 <= g < |groups| && 0 <= i <= j < |groups[g]| ==> groups[g][i] <= groups[g][j]
    ensures centres == Means(groups)
    ensures forall k :: 0 <= k < |groups| ==> groups[k][0] <= centres[k] <= groups[k][|groups[k]| - 1]
  {
    centres := [];
    var g := 0;
    while g < |groups|
      invariant 0 <= g <= |groups|
      invariant |centres| == g
      invariant forall k :: 0 <= k < g ==> centres[k] == Sum(groups[k]) / |groups[k]|
      invariant forall k :: 0 <= k < g ==> groups[k][0] <= centres[k] <= groups[k][|groups[k]| - 1]
    {
      MeanBetween(groups[g]);
      centres := centres + [Sum(groups[g]) / |groups[g]|];
      g := g + 1;
    }
  }

  /**
   * `group_positions`: sorts the distinct positions, starts a new group
   * wherever the next position is more than `tolerance` past the last one,
   * and returns each group's floor mean. The means come out in increasing
   * order, more than `tolerance` apart, one per group and each between two
   * of the input positions.
   */
  method GroupPositions(positions: seq<int>, tolerance: int) returns (centres: seq<int>)
    ensures centres == Means(Grouped(SortedDistinct(positions), tolerance))
    ensures |centres| <= |positions|
    ensures |centres| == 0 <==> |positions| == 0
    ensures forall k :: 0 <= k < |centres| - 1 ==> centres[k] + tolerance < centres[k + 1]
    ensures forall k :: 0 <= k < |centres| ==> BetweenTwoOf(positions, centres[k])
  {
    if |positions| == 0 {
      return [];
    }
    var sorted := SortedDistinct(positions);
    assert positions[0] in sorted;
    var groups := SplitSorted(sorted, tolerance);
    centres := GroupMeans(groups);
    forall k | 0 <= k < |centres| - 1
      ensures centres[k] + tolerance < centres[k + 1]
    {
      assert groups[k][|groups[k]| - 1] + tolerance < groups[k + 1][0];
    }
    forall k | 0 <= k < |centres|
      ensures BetweenTwoOf(positions, centres[k])
    {
      var a, b := groups[k][0], groups[k][|groups[k]| - 1];
      assert a in groups[k] && b in groups[k];
      assert a in positions && b in positions && a <= centres[k] <= b;
    }
  }
}
