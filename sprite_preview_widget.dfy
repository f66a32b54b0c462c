// The grid the export preview canvas of
// export/widgets/sprite_preview_widget.py lays its sprites out on.
module SpritePreview {
  import opened Wrappers
  import opened FrameExporter
  import opened Geometry
  import Config

  /**
   * `_calculate_grid_layout` of the preview canvas: one cell without a
   * layout or without sprites; the custom counts (1 for a missing one);
   * the capped side clipped to the sprite count with the other rounded up;
   * the square grid in square and auto mode.
   */
  function PreviewGrid(layout: Option<SheetLayout>, n: nat): (r: (int, int))
    requires layout.Some? ==> ValidLayout(layout.value)
    ensures r.0 >= 1 && r.1 >= 1
    ensures layout.None? || n == 0 ==> r == (1, 1)
    ensures layout.Some? && n > 0 && layout.value.mode != "custom" ==> r.0 * r.1 >= n
    ensures layout.Some? && layout.value.mode == "custom" && n > 0 ==>
      r == (layout.value.customColumns.value, layout.value.customRows.value)
  {
    if layout.None? || n == 0 then (1, 1)
    else
      var l := layout.value;
      if l.mode == "custom" then (OrDefault(l.customColumns, 1), OrDefault(l.customRows, 1))
      else if l.mode == "rows" then
        var cols := Min(OrDefault(l.maxColumns, Config.DEFAULT_MAX_COLUMNS), n);
        (cols, CeilDiv(n, cols))
      else if l.mode == "columns" then
        var rows := Min(OrDefault(l.maxRows, Config.DEFAULT_MAX_ROWS), n);
        assert CeilDiv(n, rows) * rows == rows * CeilDiv(n, rows);
        (CeilDiv(n, rows), rows)
      else SquareGrid(n)
  }

  /**
   * The preview shows the grid the export will use in rows, columns and
   * square mode; in custom mode it does exactly when the custom grid holds
   * every sprite (the export enlarges a smaller one, the preview does not).
   */
  lemma {:induction false} PreviewMatchesExport(l: SheetLayout, n: nat, segments: seq<SegmentInfo>,
                                                autoChoice: (int, int))
    requires ValidLayout(l) && n >= 1 && WellFormedSegments(segments)
    requires autoChoice.0 >= 1 && autoChoice.1 >= 1
    ensures var s := InitialGrid(l, n, segments, autoChoice);
      (l.mode in {"rows", "columns", "square"} ==> PreviewGrid(Some(l), n) == Grow(s.0, s.1, n)) &&
      (l.mode == "custom" ==> (PreviewGrid(Some(l), n) == Grow(s.0, s.1, n) <==>
                               l.customColumns.value * l.customRows.value >= n))
  {
    var s := InitialGrid(l, n, segments, autoChoice);
    if l.mode in {"rows", "columns", "square"} {
      CappedModesNeedNoGrowth(l, n, segments, autoChoice);
    }
  }
}
