// Connected-component extraction state (sprite_model/sprite_ccl.py): the
// stored sprite boxes, the grid/ccl mode switch, the filter that keeps only
// boxes inside the sheet, and colour-key transparency over a pixel array.
module SpriteCcl {
  import opened Wrappers
  import opened Geometry
  import SpriteExtraction

  datatype Mode = Grid | Ccl

  type Rgb = (int, int, int)

  /**
   * What the detection callback gave back: it raised, returned something
   * that is not a dict, or returned a dict with a `success` flag and maybe
   * a `ccl_sprite_bounds` entry.
   */
  datatype Detection = Raised | NotADict | Returned(success: bool, bounds: Option<seq<Rect>>)

  /** The failure messages of `extract_ccl_frames`, in the order it checks them. */
  datatype CclError =
    | NoSheet | DetectionUnavailable | NoPath
    | UnexpectedResult | DetectionFailed | DetectionRaised
    | NoBoundsDetected

  function Min(a: int, b: int): int { if a <= b then a else b }
  function Max(a: int, b: int): int { if a <= b then b else a }

  // ----- The bounds filter -----

  /** The boxes, in order, that lie wholly inside a sheet of the given size. */
  function Kept(bounds: seq<Rect>, width: int, height: int): (r: seq<Rect>)
    ensures |r| <= |bounds|
    ensures forall i :: 0 <= i < |r| ==> InsideSheet(r[i], width, height)
  {
    if |bounds| == 0 then []
    else
      var init := Kept(bounds[..|bounds| - 1], width, height);
      var last := bounds[|bounds| - 1];
      assert bounds == bounds[..|bounds| - 1] + [last];
      if InsideSheet(last, width, height) then init + [last] else init
  }

  /** A box survives the filter exactly when it is one of the boxes and fits the sheet. */
  lemma {:induction false} KeptMembers(bounds: seq<Rect>, width: int, height: int)
    ensures forall b :: b in Kept(bounds, width, height) <==> b in bounds && InsideSheet(b, width, height)
  {
    if |bounds| > 0 {
      var init := bounds[..|bounds| - 1];
      KeptMembers(init, width, height);
      assert bounds == init + [bounds[|bounds| - 1]];
    }
  }

  /** Boxes that all fit are kept unchanged, so filtering twice is filtering once. */
  lemma {:induction false} KeptAllInside(bounds: seq<Rect>, width: int, height: int)
    requires forall i :: 0 <= i < |bounds| ==> InsideSheet(bounds[i], width, height)
    ensures Kept(bounds, width, height) == bounds
  {
    if |bounds| > 0 {
      KeptAllInside(bounds[..|bounds| - 1], width, height);
      assert bounds == bounds[..|bounds| - 1] + [bounds[|bounds| - 1]];
    }
  }

  lemma KeptIdempotent(bounds: seq<Rect>, width: int, height: int)
    ensures Kept(Kept(bounds, width, height), width, height) == Kept(bounds, width, height)
  {
    KeptAllInside(Kept(bounds, width, height), width, height);
  }

  /** A box is dropped exactly when it sticks out of the sheet on some side. */
  lemma {:induction false} KeptDropsOnlyOutside(bounds: seq<Rect>, width: int, height: int)
    ensures |Kept(bounds, width, height)| == |bounds| <==>
      forall i :: 0 <= i < |bounds| ==> InsideSheet(bounds[i], width, height)
  {
    if |bounds| > 0 {
      var init := bounds[..|bounds| - 1];
      KeptDropsOnlyOutside(init, width, height);
      assert forall i :: 0 <= i < |init| ==> init[i] == bounds[i];
      if !InsideSheet(bounds[|bounds| - 1], width, height) {
        assert |Kept(bounds, width, height)| == |Kept(init, width, height)| <= |init|;
      }
    }
  }

  /** Filtering one more box appends it exactly when it fits. */
  lemma KeptStep(bounds: seq<Rect>, i: nat, width: int, height: int)
    requires i < |bounds|
    ensures Kept(bounds[..i + 1], width, height) ==
      Kept(bounds[..i], width, height) + (if InsideSheet(bounds[i], width, height) then [bounds[i]] else [])
  {
    assert bounds[..i + 1][..i] == bounds[..i];
  }

  /** The crop loop of `extract_ccl_frames`: one frame per box that fits. */
  method CropInside(bounds: seq<Rect>, width: int, height: int) returns (frames: seq<Rect>)
    ensures frames == Kept(bounds, width, height)
  {
    frames := [];
    var i := 0;
    while i < |bounds|
      invariant 0 <= i <= |bounds|
      invariant frames == Kept(bounds[..i], width, height)
    {
      KeptStep(bounds, i, width, height);
      if InsideSheet(bounds[i], width, height) {
        frames := frames + [bounds[i]];
      }
      i := i + 1;
    }
    assert bounds[..|bounds|] == bounds;
  }

  // ----- Colour-key transparency -----

  /** The channels of a 32-bit ARGB pixel: `(p >> 16) & 0xFF` and so on. */
  function Red(p: nat): nat { (p / 0x10000) % 0x100 }
  function Green(p: nat): nat { (p / 0x100) % 0x100 }
  function Blue(p: nat): nat { p % 0x100 }

  function Argb(a: nat, r: nat, g: nat, b: nat): nat
  {
    a * 0x1000000 + r * 0x10000 + g * 0x100 + b
  }

  /** The channel extraction recovers the colour an ARGB value was packed from. */
  lemma ChannelsOfArgb(a: nat, r: nat, g: nat, b: nat)
    requires r < 0x100 && g < 0x100 && b < 0x100
    ensures Red(Argb(a, r, g, b)) == r
    ensures Green(Argb(a, r, g, b)) == g
    ensures Blue(Argb(a, r, g, b)) == b
  {
    var p := Argb(a, r, g, b);
    assert p / 0x10000 == a * 0x100 + r;
    assert p / 0x100 == (a * 0x100 + r) * 0x100 + g;
  }

  function Abs(x: int): nat { if x < 0 then -x else x }

  /** Every colour channel lies within the tolerance of the background's. */
  predicate NearBackground(p: nat, bg: Rgb, tolerance: int)
  {
    Abs(Red(p) - bg.0) <= tolerance && Abs(Green(p) - bg.1) <= tolerance && Abs(Blue(p) - bg.2) <= tolerance
  }

  /** One pixel after keying: fully transparent if near the background, else as it was. */
  function Keyed(p: nat, bg: Rgb, tolerance: int): nat
  {
    if NearBackground(p, bg, tolerance) then 0 else p
  }

  /** Keying an already keyed pixel changes nothing. */
  lemma KeyedIdempotent(p: nat, bg: Rgb, tolerance: int)
    ensures Keyed(Keyed(p, bg, tolerance), bg, tolerance) == Keyed(p, bg, tolerance)
  {
  }

  /** A visible pixel left after keying is not near the background. */
  lemma KeyedLeavesNoBackground(p: nat, bg: Rgb, tolerance: int)
    ensures Keyed(p, bg, tolerance) != 0 ==> !NearBackground(Keyed(p, bg, tolerance), bg, tolerance)
  {
  }

  /** A larger tolerance clears every pixel a smaller one clears. */
  lemma ToleranceMonotone(p: nat, bg: Rgb, low: int, high: int)
    requires low <= high
    ensures Keyed(p, bg, low) == 0 ==> Keyed(p, bg, high) == 0
  {
  }

  /** At tolerance 0 exactly the pixels of the background colour, any alpha, are cleared. */
  lemma ZeroToleranceIsExactColour(a: nat, r: nat, g: nat, b: nat, bg: Rgb)
    requires r < 0x100 && g < 0x100 && b < 0x100
    ensures NearBackground(Argb(a, r, g, b), bg, 0) <==> (r, g, b) == bg
  {
    ChannelsOfArgb(a, r, g, b);
  }

  /**
   * `_apply_background_transparency` on an image already in ARGB32 form,
   * rows first: every pixel near the background becomes 0x00000000 and
   * every other pixel keeps its value.
   */
  method ApplyBackgroundTransparency(image: array2<nat>, bg: Rgb, tolerance: int)
    modifies image
    ensures forall y, x :: 0 <= y < image.Length0 && 0 <= x < image.Length1 ==>
      image[y, x] == Keyed(old(image[y, x]), bg, tolerance)
  {
    var y := 0;
    while y < image.Length0
      invariant 0 <= y <= image.Length0
      invariant forall j, i :: 0 <= j < y && 0 <= i < image.Length1 ==>
        image[j, i] == Keyed(old(image[j, i]), bg, tolerance)
      invariant forall j, i :: y <= j < image.Length0 && 0 <= i < image.Length1 ==>
        image[j, i] == old(image[j, i])
    {
      var x := 0;
      while x < image.Length1
        invariant 0 <= x <= image.Length1
        invariant forall j, i :: 0 <= j < y && 0 <= i < image.Length1 ==>
          image[j, i] == Keyed(old(image[j, i]), bg, tolerance)
        invariant forall i :: 0 <= i < x ==> image[y, i] == Keyed(old(image[y, i]), bg, tolerance)
        invariant forall j, i :: (y < j < image.Length0 || (j == y && x <= i)) && 0 <= i < image.Length1 ==>
          image[j, i] == old(image[j, i])
      {
        if NearBackground(image[y, x], bg, tolerance) {
          image[y, x] := 0;
        }
        x := x + 1;
      }
      y := y + 1;
    }
  }

  // ----- The CCL state -----

  /**
   * Why auto-detection, run because no boxes are stored, gives up before
   * any box is stored; None when the callback succeeded.
   */
  function DetectionFailure(path: string, cclAvailable: bool, detection: Detection): (r: Option<CclError>)
    ensures r.None? <==> cclAvailable && path != "" && detection.Returned? && detection.success
  {
    if !cclAvailable then Some(DetectionUnavailable)
    else if path == "" then Some(NoPath)
    else match detection
      case Raised => Some(DetectionRaised)
      case NotADict => Some(UnexpectedResult)
      case Returned(success, _) => if success then None else Some(DetectionFailed)
  }

  /** Auto-detection runs and hands over a list of boxes, which is then stored. */
  predicate Adopts(sheet: Option<SpriteExtraction.Sheet>, stored: seq<Rect>, path: string, cclAvailable: bool, detection: Detection)
  {
    sheet.Some? && |stored| == 0 && DetectionFailure(path, cclAvailable, detection).None? && detection.bounds.Some?
  }

  /** `CCLOperations`. */
  class CclOperations {
    var spriteBounds: seq<Rect>
    var available: bool
    var backgroundColor: Option<Rgb>
    var colorTolerance: int
    var extractionMode: Mode
    var lastExtractedFrames: seq<Rect>

    /** `__init__`: no boxes, unavailable, no background, tolerance 10, ccl mode. */
    constructor()
      ensures spriteBounds == [] && !available && backgroundColor.None? && colorTolerance == 10
      ensures extractionMode == Ccl && lastExtractedFrames == []
    {
      spriteBounds := [];
      available := false;
      backgroundColor := None;
      colorTolerance := 10;
      extractionMode := Ccl;
      lastExtractedFrames := [];
    }

    /**
     * `extract_ccl_frames`. The detection callbacks are parameters; with no
     * boxes stored, a successful detection's boxes are stored, and the
     * background detection's tolerance is capped at 25. The frames are the
     * stored boxes that fit the sheet.
     */
    method ExtractCclFrames(sheet: Option<SpriteExtraction.Sheet>, path: string, cclAvailable: bool,
                            detection: Detection, background: Option<(Rgb, int)>)
      returns (r: Result<seq<Rect>, CclError>)
      modifies this
      ensures Adopts(sheet, old(spriteBounds), path, cclAvailable, detection) ==>
        spriteBounds == detection.bounds.value && available &&
        backgroundColor == (if background.Some? then Some(background.value.0) else old(backgroundColor)) &&
        colorTolerance == (if background.Some? then Min(background.value.1, 25) else old(colorTolerance))
      ensures !Adopts(sheet, old(spriteBounds), path, cclAvailable, detection) ==>
        spriteBounds == old(spriteBounds) && available == old(available) &&
        backgroundColor == old(backgroundColor) && colorTolerance == old(colorTolerance)
      ensures r.Ok? <==> sheet.Some? && |spriteBounds| > 0
      ensures r.Ok? ==> r.value == Kept(spriteBounds, sheet.value.width, sheet.value.height) && extractionMode == Ccl
      ensures r.Err? ==> extractionMode == old(extractionMode)
      ensures sheet.None? ==> r == Err(NoSheet)
      ensures sheet.Some? && |old(spriteBounds)| == 0 && DetectionFailure(path, cclAvailable, detection).Some? ==>
        r == Err(DetectionFailure(path, cclAvailable, detection).value)
      ensures sheet.Some? && DetectionFailure(path, cclAvailable, detection).None? && |spriteBounds| == 0 ==>
        r == Err(NoBoundsDetected)
      ensures lastExtractedFrames == old(lastExtractedFrames)
    {
      if sheet.None? {
        return Err(NoSheet);
      }
      if |spriteBounds| == 0 {
        var failure := DetectionFailure(path, cclAvailable, detection);
        if failure.Some? {
          return Err(failure.value);
        }
        if detection.bounds.Some? {
          spriteBounds := detection.bounds.value;
          available := true;
          if background.Some? {
            backgroundColor := Some(background.value.0);
            colorTolerance := Min(background.value.1, 25);
          }
        }
      }
      if |spriteBounds| == 0 {
        return Err(NoBoundsDetected);
      }
      var frames := CropInside(spriteBounds, sheet.value.width, sheet.value.height);
      extractionMode := Ccl;
      return Ok(frames);
    }

    /**
     * `set_extraction_mode` as written: the mode is switched before
     * re-extracting, and the ccl branch returns before the revert, so a
     * failed CCL extraction reports False but stays in ccl mode.
     */
    method SetExtractionModeAsWritten(mode: string, sheet: Option<SpriteExtraction.Sheet>, path: string, cclAvailable: bool,
                                      gridSucceeded: bool, detection: Detection, background: Option<(Rgb, int)>)
      returns (ok: bool)
      modifies this
      ensures mode != "grid" && mode != "ccl" ==> !ok && unchanged(this)
      ensures mode == "ccl" && !cclAvailable ==> !ok && unchanged(this)
      ensures mode == "grid" ==>
        (ok == gridSucceeded && lastExtractedFrames == [] &&
         extractionMode == (if ok then Grid else old(extractionMode)) &&
         spriteBounds == old(spriteBounds) && colorTolerance == old(colorTolerance) &&
         available == old(available) && backgroundColor == old(backgroundColor))
      ensures mode == "ccl" && cclAvailable ==> extractionMode == Ccl
      ensures mode == "ccl" && cclAvailable ==> (ok <==> sheet.Some? && |spriteBounds| > 0)
      ensures mode == "ccl" && cclAvailable ==>
        lastExtractedFrames == (if ok then Kept(spriteBounds, sheet.value.width, sheet.value.height) else [])
      ensures mode == "ccl" && cclAvailable && Adopts(sheet, old(spriteBounds), path, cclAvailable, detection) ==>
        spriteBounds == detection.bounds.value && available &&
        backgroundColor == (if background.Some? then Some(background.value.0) else old(backgroundColor)) &&
        colorTolerance == (if background.Some? then Min(background.value.1, 25) else old(colorTolerance))
      ensures mode == "ccl" && cclAvailable && !Adopts(sheet, old(spriteBounds), path, cclAvailable, detection) ==>
        spriteBounds == old(spriteBounds) && available == old(available) &&
        backgroundColor == old(backgroundColor) && colorTolerance == old(colorTolerance)
    {
      if mode != "grid" && mode != "ccl" {
        return false;
      }
      if mode == "ccl" && !cclAvailable {
        return false;
      }
      var oldMode := extractionMode;
      extractionMode := if mode == "grid" then Grid else Ccl;
      if mode == "ccl" {
        var r := ExtractCclFrames(sheet, path, cclAvailable, detection, background);
        lastExtractedFrames := if r.Ok? then r.value else [];
        return r.Ok?;
      }
      lastExtractedFrames := [];
      if !gridSucceeded {
        extractionMode := oldMode;
        return false;
      }
      return true;
    }

    /**
     * `set_extraction_mode` with the revert applied to both branches: the
     * mode changes exactly when the re-extraction in the new mode succeeds.
     */
    method SetExtractionMode(mode: string, sheet: Option<SpriteExtraction.Sheet>, path: string, cclAvailable: bool,
                             gridSucceeded: bool, detection: Detection, background: Option<(Rgb, int)>)
      returns (ok: bool)
      modifies this
      ensures mode != "grid" && mode != "ccl" ==> !ok && unchanged(this)
      ensures mode == "ccl" && !cclAvailable ==> !ok && unchanged(this)
      ensures extractionMode == (if ok then (if mode == "grid" then Grid else Ccl) else old(extractionMode))
      ensures mode == "grid" ==>
        (ok == gridSucceeded && lastExtractedFrames == [] &&
         spriteBounds == old(spriteBounds) && colorTolerance == old(colorTolerance) &&
         available == old(available) && backgroundColor == old(backgroundColor))
      ensures mode == "ccl" && cclAvailable ==> (ok <==> sheet.Some? && |spriteBounds| > 0)
      ensures mode == "ccl" && cclAvailable ==>
        lastExtractedFrames == (if ok then Kept(spriteBounds, sheet.value.width, sheet.value.height) else [])
      ensures mode == "ccl" && cclAvailable && Adopts(sheet, old(spriteBounds), path, cclAvailable, detection) ==>
        spriteBounds == detection.bounds.value && available &&
        backgroundColor == (if background.Some? then Some(background.value.0) else old(backgroundColor)) &&
        colorTolerance == (if background.Some? then Min(background.value.1, 25) else old(colorTolerance))
      ensures mode == "ccl" && cclAvailable && !Adopts(sheet, old(spriteBounds), path, cclAvailable, detection) ==>
        spriteBounds == old(spriteBounds) && available == old(available) &&
        backgroundColor == old(backgroundColor) && colorTolerance == old(colorTolerance)
    {
      if mode != "grid" && mode != "ccl" {
        return false;
      }
      if mode == "ccl" && !cclAvailable {
        return false;
      }
      var oldMode := extractionMode;
      extractionMode := if mode == "grid" then Grid else Ccl;
      if mode == "ccl" {
        var r := ExtractCclFrames(sheet, path, cclAvailable, detection, background);
        lastExtractedFrames := if r.Ok? then r.value else [];
        ok := r.Ok?;
      } else {
        lastExtractedFrames := [];
        ok := gridSucceeded;
      }
      if !ok {
        extractionMode := oldMode;
      }
    }

    /** `set_ccl_sprite_bounds`: stores a copy; CCL counts as available iff the list is non-empty. */
    method SetCclSpriteBounds(bounds: seq<Rect>)
      modifies this
      ensures spriteBounds == bounds && (available <==> |bounds| > 0)
      ensures extractionMode == old(extractionMode) && colorTolerance == old(colorTolerance)
      ensures backgroundColor == old(backgroundColor) && lastExtractedFrames == old(lastExtractedFrames)
    {
      spriteBounds := bounds;
      available := |bounds| > 0;
    }

    /** `clear_ccl_data`: everything back to defaults, and grid mode. */
    method ClearCclData()
      modifies this
      ensures spriteBounds == [] && !available && backgroundColor.None? && colorTolerance == 10
      ensures extractionMode == Grid && lastExtractedFrames == old(lastExtractedFrames)
    {
      spriteBounds := [];
      available := false;
      backgroundColor := None;
      colorTolerance := 10;
      extractionMode := Grid;
    }

    /** `set_ccl_color_tolerance`: clamped into [0, 255]. */
    method SetCclColorTolerance(tolerance: int)
      modifies this
      ensures 0 <= colorTolerance <= 255
      ensures 0 <= tolerance <= 255 ==> colorTolerance == tolerance
      ensures tolerance < 0 ==> colorTolerance == 0
      ensures tolerance > 255 ==> colorTolerance == 255
      ensures spriteBounds == old(spriteBounds) && available == old(available) && extractionMode == old(extractionMode)
      ensures backgroundColor == old(backgroundColor) && lastExtractedFrames == old(lastExtractedFrames)
    {
      colorTolerance := Max(0, Min(255, tolerance));
    }

    /** `is_ccl_state_available`. */
    predicate IsCclStateAvailable()
      reads this
    {
      available && |spriteBounds| > 0
    }
  }
}
