// The simple sprite model of sprite_model.py: slicing a loaded sheet into
// equal frames without spacing, and the frame cursor and playback flags that
// the animation controller drives.
module SpriteModel {
  import opened Wrappers
  import opened Config
  import opened Geometry
  import SpriteExtraction

  type Sheet = SpriteExtraction.Sheet

  /** The reasons `validate_frame_settings` gives, in the order it checks them. */
  datatype SizeError =
    | WidthNotPositive
    | HeightNotPositive
    | WidthTooLarge
    | HeightTooLarge
    | WiderThanSheet
    | TallerThanSheet

  datatype ExtractFailure = NoSheet | BadSize(error: SizeError)

  /**
   * `validate_frame_settings`: sizes must be positive and at most
   * MAX_FRAME_SIZE, and with a sheet loaded a frame may not be larger than it.
   */
  function ValidateFrameSettings(sheet: Option<Sheet>, width: int, height: int): (r: Option<SizeError>)
    ensures r.None? <==>
      0 < width <= MAX_FRAME_SIZE && 0 < height <= MAX_FRAME_SIZE &&
      (sheet.Some? ==> width <= sheet.value.width && height <= sheet.value.height)
    ensures width <= 0 ==> r == Some(WidthNotPositive)
    ensures width > 0 && height <= 0 ==> r == Some(HeightNotPositive)
    ensures r == Some(WiderThanSheet) ==> sheet.Some? && width > sheet.value.width
    ensures r == Some(TallerThanSheet) ==> sheet.Some? && height > sheet.value.height
  {
    if width <= 0 then Some(WidthNotPositive)
    else if height <= 0 then Some(HeightNotPositive)
    else if width > MAX_FRAME_SIZE then Some(WidthTooLarge)
    else if height > MAX_FRAME_SIZE then Some(HeightTooLarge)
    else if sheet.Some? && width > sheet.value.width then Some(WiderThanSheet)
    else if sheet.Some? && height > sheet.value.height then Some(TallerThanSheet)
    else None
  }

  /**
   * How many frames of `size` fit after `offset` along one side of `length`:
   * `(length - offset) // size`, and no iterations when that is negative.
   */
  function FramesAlong(length: int, offset: int, size: int): (n: nat)
    requires size > 0
    ensures offset <= length ==> n * size <= length - offset < (n + 1) * size
    ensures offset > length ==> n == 0
  {
    if length - offset <= 0 then 0 else (length - offset) / size
  }

  /** The rectangle of frame k when frames are cut row by row, `cols` to a row. */
  function FrameAt(width: int, height: int, offsetX: int, offsetY: int, cols: nat, k: nat): Rect
    requires cols > 0
  {
    Rect(offsetX + (k % cols) * width, offsetY + (k / cols) * height, width, height)
  }

  /** Every frame the extraction produces, in row-major order. */
  function Slices(s: Sheet, width: int, height: int, offsetX: int, offsetY: int): (r: seq<Rect>)
    requires width > 0 && height > 0
    ensures |r| == FramesAlong(s.width, offsetX, width) * FramesAlong(s.height, offsetY, height)
  {
    var cols := FramesAlong(s.width, offsetX, width);
    var rows := FramesAlong(s.height, offsetY, height);
    if cols == 0 then []
    else seq(rows * cols, k requires 0 <= k < rows * cols => FrameAt(width, height, offsetX, offsetY, cols, k))
  }

  /** With non-negative offsets every sliced frame lies wholly inside the sheet. */
  lemma SlicesInside(s: Sheet, width: int, height: int, offsetX: int, offsetY: int)
    requires width > 0 && height > 0 && offsetX >= 0 && offsetY >= 0
    ensures forall f :: f in Slices(s, width, height, offsetX, offsetY) ==> InsideSheet(f, s.width, s.height)
  {
    var cols := FramesAlong(s.width, offsetX, width);
    var rows := FramesAlong(s.height, offsetY, height);
    var all := Slices(s, width, height, offsetX, offsetY);
    forall k | 0 <= k < |all|
      ensures InsideSheet(all[k], s.width, s.height)
    {
      RowBelow(k, rows, cols);
      CellInside(k % cols, cols, width, offsetX, s.width);
      CellInside(k / cols, rows, height, offsetY, s.height);
    }
  }

  /** Index k of a row-major table with `rows * cols` cells lies in one of its rows. */
  lemma RowBelow(k: nat, rows: nat, cols: nat)
    requires k < rows * cols
    ensures cols > 0 && k / cols < rows
  {
    if k / cols >= rows {
      SpriteExtraction.MulMonotone(rows, k / cols, cols);
      assert false;
    }
  }

  /** Cell `idx` of `n` cells of `size` after `offset` ends by `length` when all n fit. */
  lemma CellInside(idx: nat, n: nat, size: int, offset: int, length: int)
    requires idx < n && size > 0 && offset >= 0 && n * size <= length - offset
    ensures offset + idx * size >= 0 && offset + idx * size + size <= length
  {
    SpriteExtraction.MulMonotone(idx + 1, n, size);
  }

  /** Neither rectangle reaches into the other. */
  predicate Apart(a: Rect, b: Rect)
  {
    a.x + a.w <= b.x || b.x + b.w <= a.x || a.y + a.h <= b.y || b.y + b.h <= a.y
  }

  /** Two different frames of one slicing never overlap. */
  lemma FramesApart(width: int, height: int, offsetX: int, offsetY: int, cols: nat, i: nat, j: nat)
    requires width > 0 && height > 0 && cols > 0 && i < j
    ensures Apart(FrameAt(width, height, offsetX, offsetY, cols, i), FrameAt(width, height, offsetX, offsetY, cols, j))
  {
    RowMajorOrder(i, j, cols);
    if i / cols == j / cols {
      StepApart(i % cols, j % cols, width);
    } else {
      StepApart(i / cols, j / cols, height);
    }
  }

  /** A later row-major index is in a later row, or further along the same row. */
  lemma RowMajorOrder(i: nat, j: nat, cols: nat)
    requires cols > 0 && i < j
    ensures i / cols < j / cols || (i / cols == j / cols && i % cols < j % cols)
  {
    if j / cols < i / cols {
      SpriteExtraction.MulMonotone(j / cols + 1, i / cols, cols);
      assert false;
    }
  }

  /** Cells a and b of one size along an axis do not overlap when a comes first. */
  lemma StepApart(a: nat, b: nat, size: int)
    requires a < b && size > 0
    ensures a * size + size <= b * size
  {
    SpriteExtraction.MulMonotone(a + 1, b, size);
  }

  /** Frames k and k' of a slicing are the rectangles FrameAt gives. */
  lemma SlicesApart(s: Sheet, width: int, height: int, offsetX: int, offsetY: int, i: nat, j: nat)
    requires width > 0 && height > 0
    requires i < j < |Slices(s, width, height, offsetX, offsetY)|
    ensures Apart(Slices(s, width, height, offsetX, offsetY)[i], Slices(s, width, height, offsetX, offsetY)[j])
  {
    FramesApart(width, height, offsetX, offsetY, FramesAlong(s.width, offsetX, width), i, j);
  }

  /** One step of `next_frame` on a non-empty list: the new index and whether playback continues. */
  function Advance(current: int, count: int, looping: bool): (r: (int, bool))
    requires 0 <= current < count
    ensures 0 <= r.0 < count
    ensures current + 1 < count ==> r == (current + 1, true)
    ensures looping ==> r == ((current + 1) % count, true)
    ensures !looping && current + 1 == count ==> r == (count - 1, false)
  {
    if current + 1 >= count then
      if looping then (0, true) else (count - 1, false)
    else (current + 1, true)
  }

  /** Stepping k times in loop mode from `current` lands on `(current + k) mod count`. */
  function AdvanceTimes(current: int, count: int, k: nat): int
    requires 0 <= current < count
  {
    if k == 0 then current else Advance(AdvanceTimes(current, count, k - 1), count, true).0
  }

  lemma {:induction false} AdvanceTimesWraps(current: int, count: int, k: nat)
    requires 0 <= current < count
    ensures AdvanceTimes(current, count, k) == (current + k) % count
  {
    if k > 0 {
      AdvanceTimesWraps(current, count, k - 1);
      ModNext(current + k - 1, count);
    }
  }

  /** Taking the remainder before or after adding one gives the same remainder. */
  lemma ModNext(a: nat, n: nat)
    requires n > 0
    ensures (a % n + 1) % n == (a + 1) % n
  {
    var q, m := a / n, a % n;
    assert a == q * n + m;
    if m + 1 < n {
      SpriteExtraction.DivModOfRowMajor(q, m + 1, n);
      SpriteExtraction.DivModOfRowMajor(0, m + 1, n);
    } else {
      assert a + 1 == (q + 1) * n + 0;
      SpriteExtraction.DivModOfRowMajor(q + 1, 0, n);
      SpriteExtraction.DivModOfRowMajor(1, 0, n);
    }
  }

  /** A whole cycle of looping steps returns to the starting frame. */
  lemma FullCycleReturns(current: int, count: int)
    requires 0 <= current < count
    ensures AdvanceTimes(current, count, count) == current
  {
    AdvanceTimesWraps(current, count, count);
    SpriteExtraction.DivModOfRowMajor(1, current, count);
  }

  /** The nested loop of `extract_frames`: rows outside, columns inside. */
  method SliceSheet(s: Sheet, width: int, height: int, ox: int, oy: int) returns (cut: seq<Rect>)
    requires width > 0 && height > 0
    ensures cut == Slices(s, width, height, ox, oy)
  {
    var cols := FramesAlong(s.width, ox, width);
    var rows := FramesAlong(s.height, oy, height);
    cut := [];
    var row := 0;
    while row < rows
      invariant 0 <= row <= rows
      invariant |cut| == row * cols
      invariant forall k :: 0 <= k < |cut| ==> cols > 0 && cut[k] == FrameAt(width, height, ox, oy, cols, k)
    {
      var col := 0;
      while col < cols
        invariant 0 <= col <= cols
        invariant |cut| == row * cols + col
        invariant forall k :: 0 <= k < |cut| ==> cols > 0 && cut[k] == FrameAt(width, height, ox, oy, cols, k)
      {
        SpriteExtraction.DivModOfRowMajor(row, col, cols);
        cut := cut + [Rect(ox + col * width, oy + row * height, width, height)];
        col := col + 1;
      }
      row := row + 1;
    }
  }

  class SpriteModel {
    var sheet: Option<Sheet>
    var frames: seq<Rect>
    var frameWidth: int
    var frameHeight: int
    var offsetX: int
    var offsetY: int
    var currentFrame: int
    var isPlaying: bool
    var loopEnabled: bool
    var fps: int

    /** The cursor stays on an existing frame (0 with no frames) and the rate in range. */
    ghost predicate Valid()
      reads this
    {
      0 <= currentFrame &&
      (|frames| == 0 ==> currentFrame == 0) &&
      (|frames| > 0 ==> currentFrame < |frames|) &&
      MIN_FPS <= fps <= MAX_FPS
    }

    constructor()
      ensures Valid()
      ensures sheet == None && frames == [] && currentFrame == 0
      ensures frameWidth == DEFAULT_FRAME_WIDTH && frameHeight == DEFAULT_FRAME_HEIGHT
      ensures offsetX == 0 && offsetY == 0
      ensures !isPlaying && loopEnabled && fps == DEFAULT_FPS
    {
      sheet := None;
      frames := [];
      frameWidth := DEFAULT_FRAME_WIDTH;
      frameHeight := DEFAULT_FRAME_HEIGHT;
      offsetX := 0;
      offsetY := 0;
      currentFrame := 0;
      isPlaying := false;
      loopEnabled := true;
      fps := DEFAULT_FPS;
    }

    /** `load_sprite_sheet` once the image is decoded: keeps the old frames and rewinds the cursor. */
    method LoadSpriteSheet(s: Sheet)
      requires Valid()
      modifies this
      ensures Valid()
      ensures sheet == Some(s) && currentFrame == 0
      ensures frames == old(frames) && isPlaying == old(isPlaying) && fps == old(fps)
      ensures loopEnabled == old(loopEnabled)
      ensures frameWidth == old(frameWidth) && frameHeight == old(frameHeight)
      ensures offsetX == old(offsetX) && offsetY == old(offsetY)
    {
      sheet := Some(s);
      currentFrame := 0;
    }

    /** `clear_sprite_data`. */
    method ClearSpriteData()
      requires Valid()
      modifies this
      ensures Valid()
      ensures sheet == None && frames == [] && currentFrame == 0 && !isPlaying
      ensures fps == old(fps) && loopEnabled == old(loopEnabled)
      ensures frameWidth == old(frameWidth) && frameHeight == old(frameHeight)
      ensures offsetX == old(offsetX) && offsetY == old(offsetY)
    {
      sheet := None;
      frames := [];
      currentFrame := 0;
      isPlaying := false;
    }

    /**
     * `extract_frames`: with a sheet and valid sizes, records the settings and
     * cuts `(W - ox) // w` by `(H - oy) // h` frames row by row, rewinding the
     * cursor; otherwise nothing changes.
     */
    method ExtractFrames(width: int, height: int, ox: int, oy: int) returns (r: Result<nat, ExtractFailure>)
      requires Valid()
      modifies this
      ensures Valid()
      ensures old(sheet).None? ==> r == Err(NoSheet)
      ensures old(sheet).Some? && ValidateFrameSettings(old(sheet), width, height).Some? ==>
        r == Err(BadSize(ValidateFrameSettings(old(sheet), width, height).value))
      ensures r.Err? ==> unchanged(this)
      ensures r.Ok? <==> old(sheet).Some? && ValidateFrameSettings(old(sheet), width, height).None?
      ensures r.Ok? ==>
        frames == Slices(old(sheet).value, width, height, ox, oy) && r.value == |frames| &&
        currentFrame == 0 && frameWidth == width && frameHeight == height && offsetX == ox && offsetY == oy
      ensures sheet == old(sheet) && isPlaying == old(isPlaying) && fps == old(fps)
      ensures loopEnabled == old(loopEnabled)
    {
      if sheet.None? {
        return Err(NoSheet);
      }
      var invalid := ValidateFrameSettings(sheet, width, height);
      if invalid.Some? {
        return Err(BadSize(invalid.value));
      }
      frameWidth, frameHeight, offsetX, offsetY := width, height, ox, oy;
      frames := SliceSheet(sheet.value, width, height, ox, oy);
      currentFrame := 0;
      return Ok(|frames|);
    }

    /** `set_current_frame`: moves the cursor only to an existing frame. */
    method SetCurrentFrame(frame: int) returns (ok: bool)
      requires Valid()
      modifies this
      ensures Valid()
      ensures ok <==> 0 <= frame < |frames|
      ensures currentFrame == (if ok then frame else old(currentFrame))
      ensures frames == old(frames) && isPlaying == old(isPlaying) && fps == old(fps) && sheet == old(sheet)
      ensures loopEnabled == old(loopEnabled)
    {
      if |frames| == 0 {
        return false;
      }
      if 0 <= frame < |frames| {
        currentFrame := frame;
        return true;
      }
      return false;
    }

    /**
     * `next_frame`: advances the cursor, wrapping to the first frame when
     * looping and otherwise stopping on the last; returns the new index and
     * whether playback should continue.
     */
    method NextFrame() returns (index: int, shouldContinue: bool)
      requires Valid()
      modifies this
      ensures Valid()
      ensures |frames| == 0 ==> index == 0 && !shouldContinue && currentFrame == old(currentFrame)
      ensures |old(frames)| > 0 ==> (index, shouldContinue) == Advance(old(currentFrame), |old(frames)|, loopEnabled)
      ensures index == currentFrame
      ensures frames == old(frames) && isPlaying == old(isPlaying) && fps == old(fps) && sheet == old(sheet)
      ensures loopEnabled == old(loopEnabled)
    {
      if |frames| == 0 {
        return 0, false;
      }
      currentFrame := currentFrame + 1;
      if currentFrame >= |frames| {
        if loopEnabled {
          currentFrame := 0;
          shouldContinue := true;
        } else {
          currentFrame := |frames| - 1;
          shouldContinue := false;
        }
      } else {
        shouldContinue := true;
      }
      index := currentFrame;
    }

    /** `previous_frame`: steps back only from a frame after the first. */
    method PreviousFrame() returns (index: int)
      requires Valid()
      modifies this
      ensures Valid()
      ensures currentFrame == (if old(currentFrame) > 0 then old(currentFrame) - 1 else old(currentFrame))
      ensures index == currentFrame
      ensures frames == old(frames) && isPlaying == old(isPlaying) && fps == old(fps) && sheet == old(sheet)
      ensures loopEnabled == old(loopEnabled)
    {
      if |frames| > 0 && currentFrame > 0 {
        currentFrame := currentFrame - 1;
      }
      index := currentFrame;
    }

    /** `first_frame`. */
    method FirstFrame() returns (index: int)
      requires Valid()
      modifies this
      ensures Valid()
      ensures currentFrame == 0 && index == 0
      ensures frames == old(frames) && isPlaying == old(isPlaying) && fps == old(fps) && sheet == old(sheet)
      ensures loopEnabled == old(loopEnabled)
    {
      if |frames| > 0 {
        currentFrame := 0;
      }
      index := currentFrame;
    }

    /** `last_frame`: the last frame, or stays at 0 with no frames. */
    method LastFrame() returns (index: int)
      requires Valid()
      modifies this
      ensures Valid()
      ensures currentFrame == (if |frames| > 0 then |frames| - 1 else 0) && index == currentFrame
      ensures frames == old(frames) && isPlaying == old(isPlaying) && fps == old(fps) && sheet == old(sheet)
      ensures loopEnabled == old(loopEnabled)
    {
      if |frames| > 0 {
        currentFrame := |frames| - 1;
      }
      index := currentFrame;
    }

    /** `play`: fails, changing nothing, when there are no frames. */
    method Play() returns (ok: bool)
      requires Valid()
      modifies this
      ensures Valid()
      ensures ok <==> |frames| > 0
      ensures isPlaying == (ok || old(isPlaying))
      ensures frames == old(frames) && currentFrame == old(currentFrame) && fps == old(fps) && sheet == old(sheet)
      ensures loopEnabled == old(loopEnabled)
    {
      if |frames| == 0 {
        return false;
      }
      isPlaying := true;
      return true;
    }

    /** `pause`. */
    method Pause()
      requires Valid()
      modifies this
      ensures Valid()
      ensures !isPlaying
      ensures frames == old(frames) && currentFrame == old(currentFrame) && fps == old(fps) && sheet == old(sheet)
      ensures loopEnabled == old(loopEnabled)
    {
      isPlaying := false;
    }

    /** `stop`: stops and rewinds to the first frame. */
    method Stop()
      requires Valid()
      modifies this
      ensures Valid()
      ensures !isPlaying && currentFrame == 0
      ensures frames == old(frames) && fps == old(fps) && sheet == old(sheet)
      ensures loopEnabled == old(loopEnabled)
    {
      isPlaying := false;
      if |frames| > 0 {
        currentFrame := 0;
      }
    }

    /** `toggle_playback`: returns the new playing state. */
    method TogglePlayback() returns (playing: bool)
      requires Valid()
      modifies this
      ensures Valid()
      ensures playing == isPlaying
      ensures old(isPlaying) ==> !playing
      ensures !old(isPlaying) ==> (playing <==> |frames| > 0)
      ensures frames == old(frames) && currentFrame == old(currentFrame) && fps == old(fps) && sheet == old(sheet)
      ensures loopEnabled == old(loopEnabled)
    {
      if isPlaying {
        Pause();
      } else {
        var _ := Play();
      }
      playing := isPlaying;
    }

    /** `set_fps`: accepts only a rate within [MIN_FPS, MAX_FPS]. */
    method SetFps(rate: int) returns (ok: bool)
      requires Valid()
      modifies this
      ensures Valid()
      ensures ok <==> MIN_FPS <= rate <= MAX_FPS
      ensures fps == (if ok then rate else old(fps))
      ensures frames == old(frames) && currentFrame == old(currentFrame) && isPlaying == old(isPlaying)
      ensures sheet == old(sheet) && loopEnabled == old(loopEnabled)
    {
      if MIN_FPS <= rate <= MAX_FPS {
        fps := rate;
        return true;
      }
      return false;
    }

    /** `set_loop_enabled`. */
    method SetLoopEnabled(enabled: bool)
      requires Valid()
      modifies this
      ensures Valid()
      ensures loopEnabled == enabled
      ensures frames == old(frames) && currentFrame == old(currentFrame) && isPlaying == old(isPlaying)
      ensures sheet == old(sheet) && fps == old(fps)
    {
      loopEnabled := enabled;
    }
  }
}
