// The sprite-sheet arithmetic of export/core/frame_exporter.py: layout
// validation, the choice of columns and rows, the sheet size, and where
// each frame is drawn.
module FrameExporter {
  import opened Wrappers
  import opened Geometry
  import Config

  /** `SpriteSheetLayout`; the RGBA colour is a sequence so its length can be checked. */
  datatype SheetLayout = SheetLayout(
    mode: string, spacing: int, padding: int,
    maxColumns: Option<int>, maxRows: Option<int>,
    customColumns: Option<int>, customRows: Option<int>,
    backgroundMode: string, backgroundColor: seq<int>)

  /** The `ValueError`s `__post_init__` raises, one per check. */
  datatype LayoutError =
    | InvalidMode | SpacingOutOfRange | PaddingOutOfRange
    | MaxColumnsOutOfRange | MaxRowsOutOfRange
    | CustomNeedsBothCounts | CustomColumnsOutOfRange | CustomRowsOutOfRange
    | InvalidBackgroundMode | ColorNotRgba | ColorOutOfRange

  const VALID_MODES: seq<string> := Config.LAYOUT_MODES + ["segments_per_row"]

  const DEFAULT_LAYOUT := SheetLayout(
    Config.DEFAULT_LAYOUT_MODE, Config.DEFAULT_SPRITE_SPACING, Config.DEFAULT_SHEET_PADDING,
    None, None, None, None, Config.DEFAULT_BACKGROUND_MODE, Config.DEFAULT_BACKGROUND_COLOR)

  predicate GridSizeOk(v: int)
  {
    Config.MIN_GRID_SIZE <= v <= Config.MAX_GRID_SIZE
  }

  predicate OptionalGridSizeOk(v: Option<int>)
  {
    v.None? || GridSizeOk(v.value)
  }

  /**
   * `__post_init__`: the first check that fails, or None for a layout
   * that may be constructed.
   */
  function LayoutCheck(l: SheetLayout): (r: Option<LayoutError>)
    ensures r.None? <==>
      l.mode in Config.LAYOUT_MODES &&
      Config.MIN_SPRITE_SPACING <= l.spacing <= Config.MAX_SPRITE_SPACING &&
      Config.MIN_SHEET_PADDING <= l.padding <= Config.MAX_SHEET_PADDING &&
      OptionalGridSizeOk(l.maxColumns) && OptionalGridSizeOk(l.maxRows) &&
      (l.mode == "custom" ==> (l.customColumns.Some? && l.customRows.Some? &&
                               GridSizeOk(l.customColumns.value) && GridSizeOk(l.customRows.value))) &&
      l.backgroundMode in Config.BACKGROUND_MODES &&
      |l.backgroundColor| == 4 && (forall i :: 0 <= i < 4 ==> 0 <= l.backgroundColor[i] <= 255)
    ensures r == Some(InvalidMode) <==> l.mode !in Config.LAYOUT_MODES
    ensures r == Some(CustomNeedsBothCounts) ==> l.mode == "custom" && (l.customColumns.None? || l.customRows.None?)
  {
    if l.mode !in VALID_MODES then Some(InvalidMode)
    else if !(Config.MIN_SPRITE_SPACING <= l.spacing <= Config.MAX_SPRITE_SPACING) then Some(SpacingOutOfRange)
    else if !(Config.MIN_SHEET_PADDING <= l.padding <= Config.MAX_SHEET_PADDING) then Some(PaddingOutOfRange)
    else if !OptionalGridSizeOk(l.maxColumns) then Some(MaxColumnsOutOfRange)
    else if !OptionalGridSizeOk(l.maxRows) then Some(MaxRowsOutOfRange)
    else if l.mode == "custom" && (l.customColumns.None? || l.customRows.None?) then Some(CustomNeedsBothCounts)
    else if l.mode == "custom" && !GridSizeOk(l.customColumns.value) then Some(CustomColumnsOutOfRange)
    else if l.mode == "custom" && !GridSizeOk(l.customRows.value) then Some(CustomRowsOutOfRange)
    else if l.backgroundMode !in Config.BACKGROUND_MODES then Some(InvalidBackgroundMode)
    else if |l.backgroundColor| != 4 then Some(ColorNotRgba)
    else if exists i :: 0 <= i < 4 && !(0 <= l.backgroundColor[i] <= 255) then Some(ColorOutOfRange)
    else None
  }

  /** A layout that `SpriteSheetLayout(...)` accepts. */
  predicate ValidLayout(l: SheetLayout)
  {
    LayoutCheck(l).None?
  }

  /** The default `SpriteSheetLayout()` passes its own checks. */
  lemma DefaultLayoutValid()
    ensures ValidLayout(DEFAULT_LAYOUT)
    ensures DEFAULT_LAYOUT.mode == "auto" && DEFAULT_LAYOUT.spacing == 0 && DEFAULT_LAYOUT.padding == 0
  {
    assert DEFAULT_LAYOUT.mode == Config.LAYOUT_MODES[0];
    assert DEFAULT_LAYOUT.backgroundMode == Config.BACKGROUND_MODES[0];
  }

  /** Python's `value or default` on an optional count. */
  function OrDefault(v: Option<int>, default: int): int
  {
    if v.Some? && v.value != 0 then v.value else default
  }

  /** `get_effective_columns`: custom columns, or the column cap in rows mode, or none. */
  function EffectiveColumns(l: SheetLayout): (r: Option<int>)
    requires ValidLayout(l)
    ensures r.Some? <==> l.mode == "custom" || l.mode == "rows"
    ensures l.mode == "rows" ==> r == Some(if l.maxColumns.Some? then l.maxColumns.value else Config.DEFAULT_MAX_COLUMNS)
    ensures r.Some? ==> GridSizeOk(r.value)
  {
    if l.mode == "custom" then l.customColumns
    else if l.mode == "rows" then Some(OrDefault(l.maxColumns, Config.DEFAULT_MAX_COLUMNS))
    else None
  }

  /** `get_effective_rows`: custom rows, or the row cap in columns mode, or none. */
  function EffectiveRows(l: SheetLayout): (r: Option<int>)
    requires ValidLayout(l)
    ensures r.Some? <==> l.mode == "custom" || l.mode == "columns"
    ensures l.mode == "columns" ==> r == Some(if l.maxRows.Some? then l.maxRows.value else Config.DEFAULT_MAX_ROWS)
    ensures r.Some? ==> GridSizeOk(r.value)
  {
    if l.mode == "custom" then l.customRows
    else if l.mode == "columns" then Some(OrDefault(l.maxRows, Config.DEFAULT_MAX_ROWS))
    else None
  }

  function Min(a: int, b: int): int
  {
    if a <= b then a else b
  }

  /** `math.ceil(math.sqrt(n))`, taken as the exact integer square root rounded up. */
  function CeilSqrt(n: nat): (c: nat)
    ensures n <= c * c
    ensures c == 0 || (c - 1) * (c - 1) < n
  {
    CeilSqrtFrom(n, 0)
  }

  function CeilSqrtFrom(n: nat, c: nat): (r: nat)
    requires c == 0 || (c - 1) * (c - 1) < n
    ensures n <= r * r && (r == 0 || (r - 1) * (r - 1) < n)
    decreases n - c
  {
    if n <= c * c then c
    else
      assert c <= c * c;
      CeilSqrtFrom(n, c + 1)
  }

  /** The square grid: `ceil(sqrt n)` columns and as many rows as the frames need. */
  function SquareGrid(n: int): (r: (int, int))
    requires n >= 1
    ensures r.0 >= 1 && r.1 >= 1 && r.0 * r.1 >= n
    ensures (r.1 - 1) * r.0 < n
  {
    var cols := CeilSqrt(n);
    (cols, CeilDiv(n, cols))
  }

  /** One entry of a task's `segment_info`. */
  datatype SegmentInfo = SegmentInfo(name: string, startFrame: int, endFrame: int)

  /**
   * Segments as the segment manager hands them over: a non-negative start
   * no later than the end. The corrected `update_segment` keeps every
   * stored segment so; the as-written one can leave a rejected update,
   * such as a start of -1, in the table, and such a segment is outside
   * what the drawing functions here accept.
   */
  predicate WellFormedSegments(segments: seq<SegmentInfo>)
  {
    forall i :: 0 <= i < |segments| ==> 0 <= segments[i].startFrame <= segments[i].endFrame
  }

  function SegmentLength(s: SegmentInfo): int
  {
    s.endFrame - s.startFrame + 1
  }

  /** The `max(end - start + 1 ...)` over the segments: the longest segment. */
  function LongestSegment(segments: seq<SegmentInfo>): (r: int)
    requires |segments| > 0
    ensures forall i :: 0 <= i < |segments| ==> SegmentLength(segments[i]) <= r
    ensures exists i :: 0 <= i < |segments| && SegmentLength(segments[i]) == r
  {
    if |segments| == 1 then SegmentLength(segments[0])
    else
      var rest := LongestSegment(segments[1..]);
      assert forall i :: 1 <= i < |segments| ==> segments[i] == segments[1..][i - 1];
      if SegmentLength(segments[0]) >= rest then SegmentLength(segments[0]) else rest
  }

  /**
   * The grid each mode starts from, before the coverage loop of
   * `_calculate_grid_layout`: the custom counts; the column or row cap
   * clipped to the frame count with the other side rounded up; the square
   * grid; one row per segment and as many columns as the longest segment
   * (the square grid without segments); or, in auto mode, the candidate
   * the scoring heuristic picked, which is a parameter here.
   */
  function InitialGrid(l: SheetLayout, n: int, segments: seq<SegmentInfo>, autoChoice: (int, int)): (r: (int, int))
    requires ValidLayout(l) && n >= 1 && WellFormedSegments(segments)
    requires autoChoice.0 >= 1 && autoChoice.1 >= 1
    ensures r.0 >= 1 && r.1 >= 1
    ensures l.mode == "custom" ==> r == (l.customColumns.value, l.customRows.value)
    ensures l.mode == "segments_per_row" && |segments| > 0 ==> r == (LongestSegment(segments), |segments|)
  {
    if l.mode == "custom" then (l.customColumns.value, l.customRows.value)
    else if l.mode == "rows" then
      var cols := Min(OrDefault(l.maxColumns, Config.DEFAULT_MAX_COLUMNS), n);
      (cols, CeilDiv(n, cols))
    else if l.mode == "columns" then
      var rows := Min(OrDefault(l.maxRows, Config.DEFAULT_MAX_ROWS), n);
      (CeilDiv(n, rows), rows)
    else if l.mode == "square" then SquareGrid(n)
    else if l.mode == "segments_per_row" then
      if |segments| == 0 then SquareGrid(n)
      else (LongestSegment(segments), |segments|)
    else autoChoice
  }

  /**
   * The coverage loop: while the grid has fewer cells than frames, widen it
   * when it is no wider than tall, else add a row.
   */
  function Grow(cols: int, rows: int, n: int): (r: (int, int))
    requires cols >= 1 && rows >= 1
    ensures r.0 * r.1 >= n
    ensures r.0 >= cols && r.1 >= rows
    ensures cols * rows >= n ==> r == (cols, rows)
    ensures r != (cols, rows) ==> (r.0 - 1) * r.1 < n || r.0 * (r.1 - 1) < n
    decreases n - cols * rows
  {
    if cols * rows >= n then (cols, rows)
    else if cols <= rows then
      assert (cols + 1) * rows == cols * rows + rows;
      Grow(cols + 1, rows, n)
    else
      assert cols * (rows + 1) == cols * rows + cols;
      Grow(cols, rows + 1, n)
  }

  /** `_calculate_grid_layout`: the mode's grid, grown until it holds every frame. */
  method CalculateGridLayout(l: SheetLayout, n: int, segments: seq<SegmentInfo>, autoChoice: (int, int))
    returns (cols: int, rows: int)
    requires ValidLayout(l) && n >= 1 && WellFormedSegments(segments)
    requires autoChoice.0 >= 1 && autoChoice.1 >= 1
    ensures (cols, rows) == Grow(InitialGrid(l, n, segments, autoChoice).0, InitialGrid(l, n, segments, autoChoice).1, n)
    ensures cols * rows >= n
  {
    var start := InitialGrid(l, n, segments, autoChoice);
    cols, rows := start.0, start.1;
    while cols * rows < n
      invariant cols >= 1 && rows >= 1
      invariant Grow(cols, rows, n) == Grow(start.0, start.1, n)
      decreases n - cols * rows
    {
      if cols <= rows {
        assert (cols + 1) * rows == cols * rows + rows;
        cols := cols + 1;
      } else {
        assert cols * (rows + 1) == cols * rows + cols;
        rows := rows + 1;
      }
    }
  }

  /**
   * In rows, columns and square mode the starting grid already holds every
   * frame, so the coverage loop leaves it as it is; the capped side never
   * exceeds its cap, and no row (or column) is wholly spare.
   */
  lemma CappedModesNeedNoGrowth(l: SheetLayout, n: int, segments: seq<SegmentInfo>, autoChoice: (int, int))
    requires ValidLayout(l) && n >= 1 && WellFormedSegments(segments)
    requires autoChoice.0 >= 1 && autoChoice.1 >= 1
    requires l.mode in {"rows", "columns", "square"}
    ensures var g := InitialGrid(l, n, segments, autoChoice);
      Grow(g.0, g.1, n) == g
    ensures var g := InitialGrid(l, n, segments, autoChoice);
      (l.mode == "rows" ==> g.0 == Min(EffectiveColumns(l).value, n) && (g.1 - 1) * g.0 < n) &&
      (l.mode == "columns" ==> g.1 == Min(EffectiveRows(l).value, n) && (g.0 - 1) * g.1 < n)
  {
    var g := InitialGrid(l, n, segments, autoChoice);
    if l.mode == "rows" {
      assert g.1 == CeilDiv(n, g.0);
    } else if l.mode == "columns" {
      assert g.0 == CeilDiv(n, g.1);
      assert g.0 * g.1 == g.1 * g.0;
    }
  }

  /** A custom grid is kept exactly when it holds every frame; a smaller one is enlarged. */
  lemma CustomGridKeptIffLargeEnough(l: SheetLayout, n: int, segments: seq<SegmentInfo>, autoChoice: (int, int))
    requires ValidLayout(l) && n >= 1 && WellFormedSegments(segments)
    requires autoChoice.0 >= 1 && autoChoice.1 >= 1
    requires l.mode == "custom"
    ensures var g := Grow(l.customColumns.value, l.customRows.value, n);
      (g == (l.customColumns.value, l.customRows.value) <==> l.customColumns.value * l.customRows.value >= n)
  {
  }

  /** `_calculate_sheet_dimensions`: cells, the gaps between them, and padding on both sides. */
  function SheetDimensions(cols: int, rows: int, frameWidth: int, frameHeight: int, l: SheetLayout): (int, int)
  {
    (cols * frameWidth + (cols - 1) * l.spacing + 2 * l.padding,
     rows * frameHeight + (rows - 1) * l.spacing + 2 * l.padding)
  }

  /** The cell of frame `i` in `_draw_sprites_with_layout`: one frame width and height per step. */
  function Place(i: int, cols: int, frameWidth: int, frameHeight: int, l: SheetLayout): Rect
    requires i >= 0 && cols >= 1
  {
    Rect(l.padding + (i % cols) * (frameWidth + l.spacing),
         l.padding + (i / cols) * (frameHeight + l.spacing),
         frameWidth, frameHeight)
  }

  /**
   * `drawPixmap(x, y, frame)`: a frame is drawn at its cell's top-left
   * corner at its own size, whatever the cell's size.
   */
  function AtCorner(cell: Rect, size: (int, int)): Rect
  {
    Rect(cell.x, cell.y, size.0, size.1)
  }

  /**
   * Every frame, at the size it is drawn (after scaling), fits a cell of
   * `frameWidth` by `frameHeight`.
   */
  predicate FitsCell(sizes: seq<(int, int)>, frameWidth: int, frameHeight: int)
  {
    forall i :: 0 <= i < |sizes| ==> 0 <= sizes[i].0 <= frameWidth && 0 <= sizes[i].1 <= frameHeight
  }

  /**
   * The exporter sizes every cell by the first frame (`self.task.frames[0]`).
   * The largest width and the largest height among the frames is the
   * smallest cell that holds them all.
   */
  function LargestCell(sizes: seq<(int, int)>): (r: (int, int))
    requires |sizes| >= 1
    requires forall i :: 0 <= i < |sizes| ==> sizes[i].0 >= 0 && sizes[i].1 >= 0
    ensures FitsCell(sizes, r.0, r.1)
    ensures exists i :: 0 <= i < |sizes| && sizes[i].0 == r.0
    ensures exists j :: 0 <= j < |sizes| && sizes[j].1 == r.1
  {
    if |sizes| == 1 then sizes[0]
    else
      var init := LargestCell(sizes[..|sizes| - 1]);
      var last := sizes[|sizes| - 1];
      (if last.0 > init.0 then last.0 else init.0, if last.1 > init.1 then last.1 else init.1)
  }

  /** Two rectangles share no pixel. */
  predicate Disjoint(a: Rect, b: Rect)
  {
    a.x + a.w <= b.x || b.x + b.w <= a.x || a.y + a.h <= b.y || b.y + b.h <= a.y
  }

  lemma MulLeft(a: int, b: int, c: int)
    requires a <= b && c >= 0
    ensures a * c <= b * c
  {
  }

  lemma QuotientBelow(i: int, cols: int, rows: int)
    requires 0 <= i < cols * rows && cols >= 1
    ensures i / cols < rows
  {
    if i / cols >= rows {
      MulLeft(rows, i / cols, cols);
    }
  }

  /** One cell's frame fits inside the sheet when its column and row are on the grid. */
  lemma CellInsideSheet(c: int, r: int, cols: int, rows: int, frameWidth: int, frameHeight: int, l: SheetLayout)
    requires 0 <= c < cols && 0 <= r < rows
    requires frameWidth >= 0 && frameHeight >= 0 && l.spacing >= 0 && l.padding >= 0
    ensures var d := SheetDimensions(cols, rows, frameWidth, frameHeight, l);
      InsideSheet(Rect(l.padding + c * (frameWidth + l.spacing), l.padding + r * (frameHeight + l.spacing),
                       frameWidth, frameHeight), d.0, d.1)
  {
    MulLeft(c, cols - 1, frameWidth + l.spacing);
    MulLeft(r, rows - 1, frameHeight + l.spacing);
    assert cols * frameWidth + (cols - 1) * l.spacing == (cols - 1) * (frameWidth + l.spacing) + frameWidth;
    assert rows * frameHeight + (rows - 1) * l.spacing == (rows - 1) * (frameHeight + l.spacing) + frameHeight;
  }

  /**
   * On a grid with at least one cell per frame, whose cells hold every
   * frame, every frame is drawn wholly inside the sheet, and no two frames
   * overlap.
   */
  lemma {:induction false} PlacementsFitAndDoNotOverlap(sizes: seq<(int, int)>, cols: int, rows: int,
                                                        frameWidth: int, frameHeight: int, l: SheetLayout)
    requires cols >= 1 && |sizes| <= cols * rows
    requires frameWidth >= 0 && frameHeight >= 0 && FitsCell(sizes, frameWidth, frameHeight)
    requires l.spacing >= 0 && l.padding >= 0
    ensures forall i :: 0 <= i < |sizes| ==>
      InsideSheet(AtCorner(Place(i, cols, frameWidth, frameHeight, l), sizes[i]),
                  SheetDimensions(cols, rows, frameWidth, frameHeight, l).0,
                  SheetDimensions(cols, rows, frameWidth, frameHeight, l).1)
    ensures forall i, j :: 0 <= i < j < |sizes| ==>
      Disjoint(AtCorner(Place(i, cols, frameWidth, frameHeight, l), sizes[i]),
               AtCorner(Place(j, cols, frameWidth, frameHeight, l), sizes[j]))
  {
    forall i | 0 <= i < |sizes|
      ensures InsideSheet(AtCorner(Place(i, cols, frameWidth, frameHeight, l), sizes[i]),
                          SheetDimensions(cols, rows, frameWidth, frameHeight, l).0,
                          SheetDimensions(cols, rows, frameWidth, frameHeight, l).1)
    {
      QuotientBelow(i, cols, rows);
      CellInsideSheet(i % cols, i / cols, cols, rows, frameWidth, frameHeight, l);
    }
    forall i, j | 0 <= i < j < |sizes|
      ensures Disjoint(AtCorner(Place(i, cols, frameWidth, frameHeight, l), sizes[i]),
                       AtCorner(Place(j, cols, frameWidth, frameHeight, l), sizes[j]))
    {
      SeparateCells(i, j, cols, frameWidth, frameHeight, l);
    }
  }

  lemma SeparateCells(i: int, j: int, cols: int, frameWidth: int, frameHeight: int, l: SheetLayout)
    requires 0 <= i < j && cols >= 1
    requires frameWidth >= 0 && frameHeight >= 0 && l.spacing >= 0
    ensures Disjoint(Place(i, cols, frameWidth, frameHeight, l), Place(j, cols, frameWidth, frameHeight, l))
  {
    var a, b := Place(i, cols, frameWidth, frameHeight, l), Place(j, cols, frameWidth, frameHeight, l);
    if i % cols < j % cols {
      MulLeft(i % cols + 1, j % cols, frameWidth + l.spacing);
      assert a.x + a.w <= b.x;
    } else if j % cols < i % cols {
      MulLeft(j % cols + 1, i % cols, frameWidth + l.spacing);
      assert b.x + b.w <= a.x;
    } else {
      assert i == (i / cols) * cols + i % cols && j == (j / cols) * cols + j % cols;
      if j / cols <= i / cols {
        MulLeft(j / cols, i / cols, cols);
        assert false;
      }
      MulLeft(i / cols + 1, j / cols, frameHeight + l.spacing);
      assert a.y + a.h <= b.y;
    }
  }

  /** The default layout in columns mode with at most one row. */
  const ONE_ROW_COLUMNS := DEFAULT_LAYOUT.(mode := "columns", maxRows := Some(1))

  /** Two frames in the one-row columns layout: a valid layout whose grid is two columns by one row. */
  lemma OneRowColumnsGrid()
    ensures ValidLayout(ONE_ROW_COLUMNS)
    ensures InitialGrid(ONE_ROW_COLUMNS, 2, [], (1, 1)) == (2, 1) && Grow(2, 1, 2) == (2, 1)
  {
    DefaultLayoutValid();
    assert ONE_ROW_COLUMNS.mode == Config.LAYOUT_MODES[2];
  }

  /**
   * A 10×10 frame followed by a 20×20 one on that grid, without padding:
   * the sheet is sized by the first frame to (20 + spacing)×10, and the
   * second frame, drawn at (10 + spacing, 0) at its own size, runs past the
   * sheet's right and bottom edges.
   */
  lemma FirstFrameCellOverflows(l: SheetLayout)
    requires l.padding == 0 && l.spacing >= 0
    ensures SheetDimensions(2, 1, 10, 10, l) == (20 + l.spacing, 10)
    ensures AtCorner(Place(1, 2, 10, 10, l), (20, 20)) == Rect(10 + l.spacing, 0, 20, 20)
    ensures !InsideSheet(AtCorner(Place(1, 2, 10, 10, l), (20, 20)),
                         SheetDimensions(2, 1, 10, 10, l).0, SheetDimensions(2, 1, 10, 10, l).1)
  {
  }

  /**
   * With cells of the largest frame's width and height, each frame of a
   * sheet drawn by `_draw_sprites_with_layout` lands inside the sheet, with
   * no two overlapping.
   */
  lemma {:induction false} ExportedSheetHoldsEveryFrame(l: SheetLayout, sizes: seq<(int, int)>,
                                                        segments: seq<SegmentInfo>, autoChoice: (int, int))
    requires ValidLayout(l) && |sizes| >= 1 && WellFormedSegments(segments)
    requires autoChoice.0 >= 1 && autoChoice.1 >= 1
    requires forall i :: 0 <= i < |sizes| ==> sizes[i].0 >= 0 && sizes[i].1 >= 0
    ensures var s := InitialGrid(l, |sizes|, segments, autoChoice);
      var g := Grow(s.0, s.1, |sizes|);
      var c := LargestCell(sizes);
      (forall i :: 0 <= i < |sizes| ==>
        InsideSheet(AtCorner(Place(i, g.0, c.0, c.1, l), sizes[i]),
                    SheetDimensions(g.0, g.1, c.0, c.1, l).0, SheetDimensions(g.0, g.1, c.0, c.1, l).1)) &&
      (forall i, j :: 0 <= i < j < |sizes| ==>
        Disjoint(AtCorner(Place(i, g.0, c.0, c.1, l), sizes[i]), AtCorner(Place(j, g.0, c.0, c.1, l), sizes[j])))
  {
    var s := InitialGrid(l, |sizes|, segments, autoChoice);
    var g := Grow(s.0, s.1, |sizes|);
    var c := LargestCell(sizes);
    PlacementsFitAndDoNotOverlap(sizes, g.0, g.1, c.0, c.1, l);
  }

  /**
   * `calculate_estimated_dimensions`: the sheet size the layout panel
   * shows. Without frames every mode but custom divides by zero (None).
   */
  function EstimatedDimensions(l: SheetLayout, frameWidth: int, frameHeight: int, n: int): (r: Option<(int, int)>)
    requires ValidLayout(l) && n >= 0
    ensures r.None? <==> n == 0 && l.mode != "custom"
  {
    if l.mode == "custom" then
      Some(SheetDimensions(l.customColumns.value, l.customRows.value, frameWidth, frameHeight, l))
    else if n == 0 then None
    else if l.mode == "rows" then
      var cols := Min(OrDefault(l.maxColumns, Config.DEFAULT_MAX_COLUMNS), n);
      Some(SheetDimensions(cols, CeilDiv(n, cols), frameWidth, frameHeight, l))
    else if l.mode == "columns" then
      var rows := Min(OrDefault(l.maxRows, Config.DEFAULT_MAX_ROWS), n);
      Some(SheetDimensions(CeilDiv(n, rows), rows, frameWidth, frameHeight, l))
    else
      var g := SquareGrid(n);
      Some(SheetDimensions(g.0, g.1, frameWidth, frameHeight, l))
  }

  lemma WiderGridIsWider(c1: int, c2: int, frameWidth: int, spacing: int, padding: int)
    requires c1 <= c2 && frameWidth + spacing >= 0
    ensures c1 * frameWidth + (c1 - 1) * spacing + 2 * padding <= c2 * frameWidth + (c2 - 1) * spacing + 2 * padding
    ensures c1 < c2 && frameWidth + spacing >= 1 ==>
      c1 * frameWidth + (c1 - 1) * spacing + 2 * padding < c2 * frameWidth + (c2 - 1) * spacing + 2 * padding
  {
    MulLeft(c1, c2, frameWidth + spacing);
    if c1 < c2 {
      MulLeft(c1 + 1, c2, frameWidth + spacing);
    }
  }

  /**
   * The estimate is the exported sheet's size in rows, columns and square
   * mode; in custom mode it is exactly when the custom grid holds every
   * frame, and a custom grid too small for the frames is estimated smaller
   * than the sheet the export produces.
   */
  lemma {:induction false} EstimateMatchesExport(l: SheetLayout, n: int, segments: seq<SegmentInfo>,
                                                 autoChoice: (int, int), frameWidth: int, frameHeight: int)
    requires ValidLayout(l) && n >= 1 && WellFormedSegments(segments)
    requires autoChoice.0 >= 1 && autoChoice.1 >= 1
    requires frameWidth >= 1 && frameHeight >= 1
    ensures var s := InitialGrid(l, n, segments, autoChoice);
      var g := Grow(s.0, s.1, n);
      (l.mode in {"rows", "columns", "square"} ==>
        EstimatedDimensions(l, frameWidth, frameHeight, n) == Some(SheetDimensions(g.0, g.1, frameWidth, frameHeight, l))) &&
      (l.mode == "custom" ==>
        (EstimatedDimensions(l, frameWidth, frameHeight, n) == Some(SheetDimensions(g.0, g.1, frameWidth, frameHeight, l))
         <==> l.customColumns.value * l.customRows.value >= n))
  {
    var s := InitialGrid(l, n, segments, autoChoice);
    var g := Grow(s.0, s.1, n);
    if l.mode in {"rows", "columns", "square"} {
      CappedModesNeedNoGrowth(l, n, segments, autoChoice);
    } else if l.mode == "custom" && s.0 * s.1 < n {
      if g.0 > s.0 {
        WiderGridIsWider(s.0, g.0, frameWidth, l.spacing, l.padding);
      } else {
        WiderGridIsWider(s.1, g.1, frameHeight, l.spacing, l.padding);
      }
    }
  }

  /**
   * `_draw_sprites_with_layout`: the rectangle each frame is drawn into,
   * in frame order, given the frames' drawn sizes and the cell size the
   * exporter chose (cancellation is not modelled).
   */
  method DrawSpritesWithLayout(sizes: seq<(int, int)>, cols: int, frameWidth: int, frameHeight: int,
                               l: SheetLayout)
    returns (draws: seq<Rect>)
    requires cols >= 1
    ensures |draws| == |sizes|
    ensures forall i :: 0 <= i < |sizes| ==> draws[i] == AtCorner(Place(i, cols, frameWidth, frameHeight, l), sizes[i])
  {
    draws := [];
    var i := 0;
    while i < |sizes|
      invariant 0 <= i <= |sizes| && |draws| == i
      invariant forall j :: 0 <= j < i ==> draws[j] == AtCorner(Place(j, cols, frameWidth, frameHeight, l), sizes[j])
    {
      var row := i / cols;
      var col := i % cols;
      var x := l.padding + col * (frameWidth + l.spacing);
      var y := l.padding + row * (frameHeight + l.spacing);
      draws := draws + [Rect(x, y, sizes[i].0, sizes[i].1)];
      i := i + 1;
    }
  }

  /** `_calculate_segments_sheet_dimensions`: the longest segment wide, one row per segment. */
  function SegmentsSheetDimensions(segments: seq<SegmentInfo>, frameWidth: int, frameHeight: int, l: SheetLayout)
    : (r: (int, int))
    ensures |segments| == 0 ==> r == (frameWidth + 2 * l.padding, frameHeight + 2 * l.padding)
    ensures |segments| > 0 ==> r == SheetDimensions(LongestSegment(segments), |segments|, frameWidth, frameHeight, l)
  {
    if |segments| == 0 then (frameWidth + 2 * l.padding, frameHeight + 2 * l.padding)
    else
      var longest := LongestSegment(segments);
      var count := |segments|;
      (longest * frameWidth + (longest - 1) * l.spacing + 2 * l.padding,
       count * frameHeight + (count - 1) * l.spacing + 2 * l.padding)
  }

  /** How many of a segment's frames exist among the `n` exported frames (the inner loop's `break`). */
  function DrawnInRow(s: SegmentInfo, n: int): (r: int)
    requires 0 <= s.startFrame <= s.endFrame
    ensures 0 <= r <= SegmentLength(s)
    ensures r > 0 ==> s.startFrame + r - 1 < n
    ensures r < SegmentLength(s) ==> s.startFrame + r >= n
  {
    if s.startFrame >= n then 0
    else if s.endFrame < n then SegmentLength(s)
    else n - s.startFrame
  }

  /** The draws of one segment's row: (frame index, rectangle), each frame at its own size. */
  function RowDraws(s: SegmentInfo, row: int, sizes: seq<(int, int)>, frameWidth: int, frameHeight: int,
                    l: SheetLayout)
    : seq<(int, Rect)>
    requires 0 <= s.startFrame <= s.endFrame
  {
    seq(DrawnInRow(s, |sizes|), k requires 0 <= k < DrawnInRow(s, |sizes|) =>
      (s.startFrame + k,
       AtCorner(Rect(l.padding + k * (frameWidth + l.spacing), l.padding + row * (frameHeight + l.spacing),
                     frameWidth, frameHeight), sizes[s.startFrame + k])))
  }

  /** All draws of segments-per-row mode, segment by segment. */
  function SegmentDraws(segments: seq<SegmentInfo>, sizes: seq<(int, int)>, frameWidth: int, frameHeight: int,
                        l: SheetLayout)
    : seq<(int, Rect)>
    requires WellFormedSegments(segments)
  {
    if |segments| == 0 then []
    else
      SegmentDraws(segments[..|segments| - 1], sizes, frameWidth, frameHeight, l) +
      RowDraws(segments[|segments| - 1], |segments| - 1, sizes, frameWidth, frameHeight, l)
  }

  /** `_draw_sprites_segments_per_row`: each segment on its own row, frames past the end skipped. */
  method DrawSpritesSegmentsPerRow(segments: seq<SegmentInfo>, sizes: seq<(int, int)>, frameWidth: int, frameHeight: int,
                                   l: SheetLayout)
    returns (draws: seq<(int, Rect)>)
    requires WellFormedSegments(segments)
    ensures draws == SegmentDraws(segments, sizes, frameWidth, frameHeight, l)
  {
    draws := [];
    var rowIdx := 0;
    while rowIdx < |segments|
      invariant 0 <= rowIdx <= |segments|
      invariant draws == SegmentDraws(segments[..rowIdx], sizes, frameWidth, frameHeight, l)
    {
      var row := DrawSegmentRow(segments[rowIdx], rowIdx, sizes, frameWidth, frameHeight, l);
      assert segments[..rowIdx + 1][..rowIdx] == segments[..rowIdx];
      draws := draws + row;
      rowIdx := rowIdx + 1;
    }
    assert segments[..|segments|] == segments;
  }

  /** The inner loop of `_draw_sprites_segments_per_row`: one segment's frames along row `rowIdx`. */
  method DrawSegmentRow(segment: SegmentInfo, rowIdx: int, sizes: seq<(int, int)>, frameWidth: int, frameHeight: int,
                        l: SheetLayout)
    returns (row: seq<(int, Rect)>)
    requires 0 <= segment.startFrame <= segment.endFrame
    ensures row == RowDraws(segment, rowIdx, sizes, frameWidth, frameHeight, l)
  {
    var start, end := segment.startFrame, segment.endFrame;
    row := [];
    var colIdx := 0;
    while colIdx < end - start + 1 && start + colIdx < |sizes|
      invariant 0 <= colIdx <= DrawnInRow(segment, |sizes|)
      invariant row == RowDraws(segment, rowIdx, sizes, frameWidth, frameHeight, l)[..colIdx]
    {
      var x := l.padding + colIdx * (frameWidth + l.spacing);
      var y := l.padding + rowIdx * (frameHeight + l.spacing);
      row := row + [(start + colIdx, Rect(x, y, sizes[start + colIdx].0, sizes[start + colIdx].1))];
      colIdx := colIdx + 1;
    }
    assert colIdx == DrawnInRow(segment, |sizes|);
  }

  /**
   * In segments-per-row mode every draw is of an existing frame of its
   * segment, and lands wholly inside the sheet sized for the segments.
   */
  lemma {:induction false} SegmentDrawsInsideSheet(segments: seq<SegmentInfo>, all: seq<SegmentInfo>, sizes: seq<(int, int)>,
                                                   frameWidth: int, frameHeight: int, l: SheetLayout)
    requires WellFormedSegments(all) && |segments| <= |all| && segments == all[..|segments|]
    requires frameWidth >= 0 && frameHeight >= 0 && FitsCell(sizes, frameWidth, frameHeight)
    requires l.spacing >= 0 && l.padding >= 0
    ensures DrawsInside(SegmentDraws(segments, sizes, frameWidth, frameHeight, l), |sizes|,
                        SegmentsSheetDimensions(all, frameWidth, frameHeight, l))
  {
    if |segments| > 0 {
      var init := segments[..|segments| - 1];
      var r := |segments| - 1;
      assert init == all[..|init|];
      assert segments[r] == all[r];
      SegmentDrawsInsideSheet(init, all, sizes, frameWidth, frameHeight, l);
      RowDrawsInside(all, r, sizes, frameWidth, frameHeight, l);
      DrawsInsideAppend(SegmentDraws(init, sizes, frameWidth, frameHeight, l),
                        RowDraws(all[r], r, sizes, frameWidth, frameHeight, l), |sizes|,
                        SegmentsSheetDimensions(all, frameWidth, frameHeight, l));
    }
  }

  /** Every draw is of one of the `n` frames and lies inside a sheet of size `dims`. */
  ghost predicate DrawsInside(draws: seq<(int, Rect)>, n: int, dims: (int, int))
  {
    forall d :: d in draws ==> 0 <= d.0 < n && InsideSheet(d.1, dims.0, dims.1)
  }

  lemma DrawsInsideAppend(a: seq<(int, Rect)>, b: seq<(int, Rect)>, n: int, dims: (int, int))
    requires DrawsInside(a, n, dims) && DrawsInside(b, n, dims)
    ensures DrawsInside(a + b, n, dims)
  {
  }

  /** The row of segment `r` lies inside the sheet sized for all the segments. */
  lemma RowDrawsInside(all: seq<SegmentInfo>, r: int, sizes: seq<(int, int)>, frameWidth: int, frameHeight: int, l: SheetLayout)
    requires WellFormedSegments(all) && 0 <= r < |all|
    requires frameWidth >= 0 && frameHeight >= 0 && FitsCell(sizes, frameWidth, frameHeight)
    requires l.spacing >= 0 && l.padding >= 0
    ensures DrawsInside(RowDraws(all[r], r, sizes, frameWidth, frameHeight, l), |sizes|,
                        SegmentsSheetDimensions(all, frameWidth, frameHeight, l))
  {
    var s := all[r];
    var row := RowDraws(s, r, sizes, frameWidth, frameHeight, l);
    var dims := SegmentsSheetDimensions(all, frameWidth, frameHeight, l);
    var cols := LongestSegment(all);
    assert SegmentLength(s) <= cols;
    assert dims == SheetDimensions(cols, |all|, frameWidth, frameHeight, l);
    forall k | 0 <= k < |row|
      ensures 0 <= row[k].0 < |sizes| && InsideSheet(row[k].1, dims.0, dims.1)
    {
      CellInsideSheet(k, r, cols, |all|, frameWidth, frameHeight, l);
    }
  }

  datatype ExportMode = IndividualFrames | SpriteSheet

  /** `ExportTask`: the frames are represented by their count. */
  datatype ExportTask = ExportTask(
    frameCount: int, baseName: string, mode: ExportMode, scaleFactor: real,
    selectedIndices: seq<int>, layout: SheetLayout, segments: seq<SegmentInfo>)

  datatype TaskError = NoFrames | ScaleNotPositive

  /**
   * `ExportTask.__init__`: no frames, then a non-positive scale, are
   * errors; a missing selection, layout or segment list takes its default.
   */
  function MakeExportTask(frameCount: int, baseName: string, mode: ExportMode, scaleFactor: real,
                          selected: Option<seq<int>>, layout: Option<SheetLayout>,
                          segments: Option<seq<SegmentInfo>>): (r: Result<ExportTask, TaskError>)
    requires frameCount >= 0
    ensures r.Err? <==> frameCount == 0 || scaleFactor <= 0.0
    ensures r == Err(NoFrames) <==> frameCount == 0
    ensures r.Ok? ==> (r.value.frameCount == frameCount && r.value.scaleFactor == scaleFactor &&
                       r.value.layout == (if layout.Some? then layout.value else DEFAULT_LAYOUT) &&
                       r.value.selectedIndices == (if selected.Some? then selected.value else []) &&
                       r.value.segments == (if segments.Some? then segments.value else []))
  {
    if frameCount == 0 then Err(NoFrames)
    else if scaleFactor <= 0.0 then Err(ScaleNotPositive)
    else
      Ok(ExportTask(frameCount, baseName, mode, scaleFactor,
                    if selected.Some? then selected.value else [],
                    if layout.Some? then layout.value else DEFAULT_LAYOUT,
                    if segments.Some? then segments.value else []))
  }

  /** `int(size * scale_factor)` when the scale is not 1.0; truncation is flooring for these operands. */
  function ScaledSize(size: nat, scaleFactor: real): (r: int)
    requires scaleFactor > 0.0
    ensures scaleFactor == 1.0 ==> r == size
    ensures 0 <= r && r as real <= size as real * scaleFactor < r as real + 1.0
    ensures scaleFactor <= 1.0 ==> r <= size
  {
    if scaleFactor != 1.0 then (size as real * scaleFactor).Floor else size
  }
}
