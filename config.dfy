// Constants from config.py that the modelled code consults.
module Config {
  // Animation settings
  const DEFAULT_FPS := 10
  const MIN_FPS := 1
  const MAX_FPS := 60
  const TIMER_BASE := 1000

  // Frame extraction settings
  const MIN_FRAME_SIZE := 1
  const MAX_FRAME_SIZE := 2048
  const DEFAULT_FRAME_WIDTH := 192
  const DEFAULT_FRAME_HEIGHT := 192
  const MAX_OFFSET := 1000
  const MAX_SPACING := 20
  const AUTO_DETECT_SIZES: seq<int> := [256, 192, 128, 64, 32, 16]
  const MIN_SPRITE_SIZE := 16
  const MARGIN_DETECTION_ALPHA_THRESHOLD := 10
  const BASE_SIZES: seq<int> := [8, 12, 16, 20, 24, 32, 40, 48, 64, 80, 96, 128, 160, 192, 256]
  const COMMON_ASPECT_RATIOS: seq<(int, int)> := [(1, 1), (1, 2), (2, 1), (2, 3), (3, 2), (3, 4), (4, 3)]
  const MIN_REASONABLE_FRAMES := 2
  const MAX_REASONABLE_FRAMES := 200

  // Export settings
  const LAYOUT_MODES: seq<string> := ["auto", "rows", "columns", "square", "custom", "segments_per_row"]
  const DEFAULT_LAYOUT_MODE := "auto"
  const DEFAULT_SPRITE_SPACING := 0
  const DEFAULT_SHEET_PADDING := 0
  const MIN_SPRITE_SPACING := 0
  const MAX_SPRITE_SPACING := 50
  const MIN_SHEET_PADDING := 0
  const MAX_SHEET_PADDING := 100
  const DEFAULT_MAX_COLUMNS := 10
  const DEFAULT_MAX_ROWS := 10
  const MIN_GRID_SIZE := 1
  const MAX_GRID_SIZE := 50
  const BACKGROUND_MODES: seq<string> := ["transparent", "solid", "checkerboard"]
  const DEFAULT_BACKGROUND_MODE := "transparent"
  const DEFAULT_BACKGROUND_COLOR: seq<int> := [255, 255, 255, 255]
}
