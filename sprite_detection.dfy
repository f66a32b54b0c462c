// Automatic detection of frame sizes and margins
// (sprite_model/sprite_detection.py): scanning an alpha grid for empty edge
// columns and rows, the reasonableness rules applied to those margins, frame
// sizes from divisibility, the tally of content dimensions, and the final
// consistency check of a detection result.
module SpriteDetection {
  import opened Wrappers
  import opened Config
  import opened SpriteExtraction

  // ----- Margin scanning -----

  /**
   * An image is an alpha grid indexed [y, x]: Length0 is the height and
   * Length1 the width. A pixel counts as content above the alpha threshold.
   */
  predicate IsContent(alpha: int)
  {
    alpha > MARGIN_DETECTION_ALPHA_THRESHOLD
  }

  ghost predicate ColumnEmpty(img: array2<int>, x: int)
    requires 0 <= x < img.Length1
    reads img
  {
    forall y :: 0 <= y < img.Length0 ==> !IsContent(img[y, x])
  }

  ghost predicate RowEmpty(img: array2<int>, y: int)
    requires 0 <= y < img.Length0
    reads img
  {
    forall x :: 0 <= x < img.Length1 ==> !IsContent(img[y, x])
  }

  /**
   * `left` is the left margin `_detect_raw_margins` measures: the columns
   * before it are empty and the column at it, if any, is not.
   */
  ghost predicate IsLeftMargin(img: array2<int>, left: int)
    reads img
  {
    0 <= left <= img.Length1 &&
    (forall x :: 0 <= x < left ==> ColumnEmpty(img, x)) &&
    (left < img.Length1 ==> !ColumnEmpty(img, left))
  }

  /** `top` is the measured top margin, row for column as for `IsLeftMargin`. */
  ghost predicate IsTopMargin(img: array2<int>, top: int)
    reads img
  {
    0 <= top <= img.Length0 &&
    (forall y :: 0 <= y < top ==> RowEmpty(img, y)) &&
    (top < img.Length0 ==> !RowEmpty(img, top))
  }

  /** The measured left and top margins are unique: the first column and row with content. */
  lemma MarginsUnique(img: array2<int>, l1: int, l2: int, t1: int, t2: int)
    requires IsLeftMargin(img, l1) && IsLeftMargin(img, l2)
    requires IsTopMargin(img, t1) && IsTopMargin(img, t2)
    ensures l1 == l2 && t1 == t2
  {
  }

  /** Scans column x from the top and reports whether any pixel is content. */
  method ColumnHasContent(img: array2<int>, x: int) returns (found: bool)
    requires 0 <= x < img.Length1
    ensures found <==> !ColumnEmpty(img, x)
  {
    found := false;
    var y := 0;
    while y < img.Length0
      invariant 0 <= y <= img.Length0
      invariant forall k :: 0 <= k < y ==> !IsContent(img[k, x])
    {
      if IsContent(img[y, x]) {
        found := true;
        return;
      }
      y := y + 1;
    }
  }

  /** Scans row y from the left and reports whether any pixel is content. */
  method RowHasContent(img: array2<int>, y: int) returns (found: bool)
    requires 0 <= y < img.Length0
    ensures found <==> !RowEmpty(img, y)
  {
    found := false;
    var x := 0;
    while x < img.Length1
      invariant 0 <= x <= img.Length1
      invariant forall k :: 0 <= k < x ==> !IsContent(img[y, k])
    {
      if IsContent(img[y, x]) {
        found := true;
        return;
      }
      x := x + 1;
    }
  }

  /**
   * `_detect_raw_margins`: each margin counts the empty columns (or rows)
   * met from that edge before the first one holding content; a wholly
   * empty image gives the full width (or height) on every side.
   */
  method DetectRawMargins(img: array2<int>) returns (left: nat, right: nat, top: nat, bottom: nat)
    ensures left <= img.Length1 && right <= img.Length1
    ensures top <= img.Length0 && bottom <= img.Length0
    ensures forall x :: 0 <= x < left ==> ColumnEmpty(img, x)
    ensures left < img.Length1 ==> !ColumnEmpty(img, left)
    ensures forall x :: img.Length1 - right <= x < img.Length1 ==> ColumnEmpty(img, x)
    ensures right < img.Length1 ==> !ColumnEmpty(img, img.Length1 - 1 - right)
    ensures forall y :: 0 <= y < top ==> RowEmpty(img, y)
    ensures top < img.Length0 ==> !RowEmpty(img, top)
    ensures forall y :: img.Length0 - bottom <= y < img.Length0 ==> RowEmpty(img, y)
    ensures bottom < img.Length0 ==> !RowEmpty(img, img.Length0 - 1 - bottom)
  {
    var width, height := img.Length1, img.Length0;
    left := 0;
    while left < width
      invariant left <= width
      invariant forall x :: 0 <= x < left ==> ColumnEmpty(img, x)
    {
      var found := ColumnHasContent(img, left);
      if found {
        break;
      }
      left := left + 1;
    }
    right := 0;
    while right < width
      invariant right <= width
      invariant forall x :: width - right <= x < width ==> ColumnEmpty(img, x)
    {
      var found := ColumnHasContent(img, width - 1 - right);
      if found {
        break;
      }
      right := right + 1;
    }
    top := 0;
    while top < height
      invariant top <= height
      invariant forall y :: 0 <= y < top ==> RowEmpty(img, y)
    {
      var found := RowHasContent(img, top);
      if found {
        break;
      }
      top := top + 1;
    }
    bottom := 0;
    while bottom < height
      invariant bottom <= height
      invariant forall y :: height - bottom <= y < height ==> RowEmpty(img, y)
    {
      var found := RowHasContent(img, height - 1 - bottom);
      if found {
        break;
      }
      bottom := bottom + 1;
    }
  }

  // ----- Margin validation -----

  /**
   * The largest r below `below` (and at least 0) that leaves a length
   * divisible by the frame size, searching downward as lines 220-226 do.
   */
  function LargestAligned(length: int, frame: int, below: int): (r: Option<int>)
    requires frame > 0
    decreases below
    ensures r.Some? ==> 0 <= r.value < below && Aligned(length, frame, r.value)
    ensures r.Some? ==> forall k :: r.value < k < below ==> !Aligned(length, frame, k)
    ensures r.None? ==> forall k :: 0 <= k < below ==> !Aligned(length, frame, k)
  {
    if below <= 0 then None
    else if Aligned(length, frame, below - 1) then Some(below - 1)
    else LargestAligned(length, frame, below - 1)
  }

  /** Removing `margin` pixels leaves a length that whole frames tile. */
  predicate Aligned(length: int, frame: int, margin: int)
    requires frame > 0
  {
    (length - margin) % frame == 0
  }

  /** A margin is reset when it exceeds a quarter of the dimension (lines 201-210). */
  function ResetExcessive(margin: int, dimension: int): int
  {
    if margin > dimension / 4 then 0 else margin
  }

  /** Lines 218-226 (or 228-236): reduce a margin that leaves a ragged remainder. */
  function AlignToFrame(margin: int, dimension: int, frame: int): int
    requires frame > 0
  {
    if !Aligned(dimension, frame, margin) then
      match LargestAligned(dimension, frame, margin)
      case Some(r) => r
      case None => margin
    else margin
  }

  /** Lines 238-253: cap margins of a horizontal strip at 5, then zero margins of 2 or less. */
  function FinalAdjust(margin: int, isStrip: bool): int
  {
    var capped := if isStrip && margin > 5 then 5 else margin;
    if capped <= 2 then 0 else capped
  }

  /** A wide strip: width / height > 3.0, which for these integer sizes is width > 3 * height. */
  predicate IsHorizontalStrip(width: int, height: int)
  {
    width > 3 * height
  }

  /** Both frame dimensions are known and positive (line 213). */
  predicate FrameKnown(frameWidth: Option<int>, frameHeight: Option<int>)
  {
    frameWidth.Some? && frameHeight.Some? && frameWidth.value > 0 && frameHeight.value > 0
  }

  /**
   * The left and top margins `_validate_margins` returns: each reset when
   * excessive, reduced to a whole number of frames when the frame size is
   * known, then capped for a strip and zeroed when 2 or less.
   */
  function Validated(left: int, top: int, width: int, height: int,
                     frameWidth: Option<int>, frameHeight: Option<int>): (int, int)
  {
    var strip := IsHorizontalStrip(width, height);
    var l := ResetExcessive(left, width);
    var t := ResetExcessive(top, height);
    if FrameKnown(frameWidth, frameHeight) then
      (FinalAdjust(AlignToFrame(l, width, frameWidth.value), strip),
       FinalAdjust(AlignToFrame(t, height, frameHeight.value), strip))
    else
      (FinalAdjust(l, strip), FinalAdjust(t, strip))
  }

  /**
   * `_validate_margins`: returns the validated left and top margins (the
   * right and bottom ones are measured but not adjusted). The sheet height
   * must be non-zero: the aspect-ratio test divides by it.
   */
  method ValidateMargins(left: nat, right: nat, top: nat, bottom: nat, width: nat, height: nat,
                         frameWidth: Option<int>, frameHeight: Option<int>)
    returns (validatedLeft: int, validatedTop: int)
    requires height > 0
    ensures 0 <= validatedLeft <= left && 0 <= validatedTop <= top
    ensures validatedLeft == 0 || validatedLeft > 2
    ensures validatedTop == 0 || validatedTop > 2
    ensures left > width / 4 ==> validatedLeft == 0
    ensures top > height / 4 ==> validatedTop == 0
    ensures IsHorizontalStrip(width, height) ==> validatedLeft <= 5 && validatedTop <= 5
    ensures (validatedLeft, validatedTop) == Validated(left, top, width, height, frameWidth, frameHeight)
  {
    validatedLeft, validatedTop := left, top;
    var maxReasonableX, maxReasonableY := width / 4, height / 4;
    if left > maxReasonableX {
      validatedLeft := 0;
    }
    if top > maxReasonableY {
      validatedTop := 0;
    }
    if FrameKnown(frameWidth, frameHeight) {
      validatedLeft := ReduceForCleanDivision(validatedLeft, width, frameWidth.value);
      validatedTop := ReduceForCleanDivision(validatedTop, height, frameHeight.value);
    }
    var strip := width > 3 * height;
    validatedLeft := Finish(validatedLeft, strip);
    validatedTop := Finish(validatedTop, strip);
  }

  /**
   * The frame-alignment step of `_validate_margins`, for either margin:
   * when the space after the margin is not a whole number of frames,
   * search downward from margin - 1 for the first margin that is.
   */
  method ReduceForCleanDivision(margin: nat, dimension: int, frame: int) returns (m: nat)
    requires frame > 0
    ensures m == AlignToFrame(margin, dimension, frame)
    ensures m <= margin
  {
    m := margin;
    if (dimension - margin) % frame != 0 {
      var reduced := margin - 1;
      while reduced >= 0
        invariant -1 <= reduced < margin
        invariant LargestAligned(dimension, frame, margin) == LargestAligned(dimension, frame, reduced + 1)
      {
        if (dimension - reduced) % frame == 0 {
          m := reduced;
          break;
        }
        reduced := reduced - 1;
      }
    }
  }

  /** The last step of `_validate_margins` for one margin: the strip cap, then zeroing small margins. */
  method Finish(margin: int, isStrip: bool) returns (m: int)
    ensures m == FinalAdjust(margin, isStrip)
    ensures m == 0 || (m > 2 && m <= margin)
    ensures isStrip ==> m <= 5
  {
    m := margin;
    if isStrip && m > 5 {
      m := 5;
    }
    if m <= 2 {
      m := 0;
    }
  }

  /**
   * `detect_margins`: scans the image and validates the left and top
   * margins; a null sheet fails. A non-null image has positive dimensions.
   */
  method DetectMargins(image: Option<array2<int>>, frameWidth: Option<int>, frameHeight: Option<int>)
    returns (r: Option<(int, int)>)
    requires image.Some? ==> image.value.Length0 > 0 && image.value.Length1 > 0
    ensures r.None? <==> image.None?
    ensures r.Some? ==> 0 <= r.value.0 <= image.value.Length1 && 0 <= r.value.1 <= image.value.Length0
    ensures r.Some? ==> forall x :: 0 <= x < r.value.0 ==> ColumnEmpty(image.value, x)
    ensures r.Some? ==> forall y :: 0 <= y < r.value.1 ==> RowEmpty(image.value, y)
    ensures r.Some? ==> (r.value.0 == 0 || r.value.0 > 2) && (r.value.1 == 0 || r.value.1 > 2)
    ensures r.Some? && IsHorizontalStrip(image.value.Length1, image.value.Length0) ==> r.value.0 <= 5 && r.value.1 <= 5
    ensures r.Some? ==> exists left, top ::
      IsLeftMargin(image.value, left) && IsTopMargin(image.value, top) &&
      r.value == Validated(left, top, image.value.Length1, image.value.Length0, frameWidth, frameHeight)
  {
    if image.None? {
      return None;
    }
    var img := image.value;
    var left, right, top, bottom := DetectRawMargins(img);
    var vl, vt := ValidateMargins(left, right, top, bottom, img.Length1, img.Length0, frameWidth, frameHeight);
    assert IsLeftMargin(img, left) && IsTopMargin(img, top);
    return Some((vl, vt));
  }

  // ----- Frame size detection -----

  /** Python's `math.gcd` on non-negative integers. */
  function Gcd(a: nat, b: nat): nat
    decreases b
  {
    if b == 0 then a else Gcd(b, a % b)
  }

  predicate Divides(d: int, n: int)
  {
    d > 0 && n % d == 0
  }

  lemma {:induction false} GcdDividesBoth(a: nat, b: nat)
    requires a > 0 || b > 0
    decreases b
    ensures Divides(Gcd(a, b), a) && Divides(Gcd(a, b), b)
  {
    if b == 0 {
      MultipleHasNoRemainder(1, a);
    } else {
      GcdDividesBoth(b, a % b);
      var g := Gcd(b, a % b);
      var q, m, n := a / b, b / g, (a % b) / g;
      assert b == m * g && a % b == n * g;
      assert a == q * b + a % b;
      assert q * b == (q * m) * g;
      assert a == (q * m + n) * g;
      MultipleHasNoRemainder(q * m + n, g);
    }
  }

  lemma MultipleHasNoRemainder(k: int, g: int)
    requires g > 0
    ensures (k * g) % g == 0
  {
    var q, r := (k * g) / g, (k * g) % g;
    assert k * g == q * g + r && 0 <= r < g;
    assert (k - q) * g == r;
    if k > q {
      MulMonotone(1, k - q, g);
      assert false;
    }
    if k < q {
      MulMonotone(1, q - k, g);
      assert false;
    }
  }

  /** A square size gives a sensible frame count for the sheet (lines 283-293). */
  predicate ReasonableSquare(s: Sheet, size: int)
  {
    size > 0 && s.width % size == 0 && s.height % size == 0 &&
    MIN_REASONABLE_FRAMES <= (s.width / size) * (s.height / size) <= MAX_REASONABLE_FRAMES
  }

  /** The index of the first of AUTO_DETECT_SIZES[from..] giving a sensible frame count. */
  function FirstReasonable(s: Sheet, from: nat): (r: Option<nat>)
    requires from <= |AUTO_DETECT_SIZES|
    decreases |AUTO_DETECT_SIZES| - from
    ensures r.Some? ==> from <= r.value < |AUTO_DETECT_SIZES| && ReasonableSquare(s, AUTO_DETECT_SIZES[r.value])
    ensures r.Some? ==> forall k :: from <= k < r.value ==> !ReasonableSquare(s, AUTO_DETECT_SIZES[k])
    ensures r.None? ==> forall k :: from <= k < |AUTO_DETECT_SIZES| ==> !ReasonableSquare(s, AUTO_DETECT_SIZES[k])
  {
    if from == |AUTO_DETECT_SIZES| then None
    else if ReasonableSquare(s, AUTO_DETECT_SIZES[from]) then Some(from)
    else FirstReasonable(s, from + 1)
  }

  /**
   * `detect_frame_size`: the first of AUTO_DETECT_SIZES giving a sensible
   * frame count, else the gcd of the sheet sides if it is at least
   * MIN_SPRITE_SIZE, else failure. A success always divides both sides.
   */
  method DetectFrameSize(sheet: Option<Sheet>) returns (r: Option<int>)
    ensures sheet.None? ==> r.None?
    ensures r.Some? ==> Divides(r.value, sheet.value.width) && Divides(r.value, sheet.value.height)
    ensures sheet.Some? ==>
      match FirstReasonable(sheet.value, 0)
      case Some(i) => r == Some(AUTO_DETECT_SIZES[i])
      case None =>
        var g := Gcd(sheet.value.width, sheet.value.height);
        r == if g >= MIN_SPRITE_SIZE then Some(g) else None
  {
    if sheet.None? {
      return None;
    }
    var s := sheet.value;
    var i := 0;
    while i < |AUTO_DETECT_SIZES|
      invariant 0 <= i <= |AUTO_DETECT_SIZES|
      invariant FirstReasonable(s, 0) == FirstReasonable(s, i)
    {
      var size := AUTO_DETECT_SIZES[i];
      if s.width % size == 0 && s.height % size == 0 {
        var framesX, framesY := s.width / size, s.height / size;
        var total := framesX * framesY;
        if MIN_REASONABLE_FRAMES <= total <= MAX_REASONABLE_FRAMES {
          return Some(size);
        }
      }
      i := i + 1;
    }
    var frameSize := Gcd(s.width, s.height);
    if frameSize >= MIN_SPRITE_SIZE {
      GcdDividesBoth(s.width, s.height);
      return Some(frameSize);
    }
    return None;
  }

  // ----- Rectangular candidates -----

  datatype Candidate = Candidate(frameWidth: int, frameHeight: int, framesX: int, framesY: int, totalFrames: int)

  /** The candidate built from BASE_SIZES[b] and COMMON_ASPECT_RATIOS[a] (lines 330-342). */
  function CandidateFor(s: Sheet, b: int, a: int): Candidate
    requires 0 <= b < |BASE_SIZES| && 0 <= a < |COMMON_ASPECT_RATIOS|
  {
    var fw := BASE_SIZES[b] * COMMON_ASPECT_RATIOS[a].0;
    var fh := BASE_SIZES[b] * COMMON_ASPECT_RATIOS[a].1;
    Candidate(fw, fh, s.width / fw, s.height / fh, (s.width / fw) * (s.height / fh))
  }

  /** The filter of lines 334-349: divides the sheet evenly and gives a sensible count. */
  predicate Admissible(s: Sheet, c: Candidate)
  {
    c.frameWidth > 0 && c.frameHeight > 0 &&
    s.width % c.frameWidth == 0 && s.height % c.frameHeight == 0 &&
    c.frameWidth <= s.width && c.frameHeight <= s.height &&
    MIN_REASONABLE_FRAMES <= c.totalFrames <= MAX_REASONABLE_FRAMES
  }

  /** Candidates from base size b, ratios 0 .. na - 1, in loop order. */
  function CandidatesOfBase(s: Sheet, b: int, na: nat): seq<Candidate>
    requires 0 <= b < |BASE_SIZES| && na <= |COMMON_ASPECT_RATIOS|
  {
    if na == 0 then []
    else
      var c := CandidateFor(s, b, na - 1);
      CandidatesOfBase(s, b, na - 1) + (if Admissible(s, c) then [c] else [])
  }

  /** Candidates from base sizes 0 .. nb - 1, in loop order. */
  function CandidatesUpTo(s: Sheet, nb: nat): seq<Candidate>
    requires nb <= |BASE_SIZES|
  {
    if nb == 0 then [] else CandidatesUpTo(s, nb - 1) + CandidatesOfBase(s, nb - 1, |COMMON_ASPECT_RATIOS|)
  }

  /**
   * The candidate list of `detect_rectangular_frames` before scoring: every
   * base size and aspect ratio is tried, outer loop over sizes.
   */
  method RectangularCandidates(s: Sheet) returns (cands: seq<Candidate>)
    ensures cands == CandidatesUpTo(s, |BASE_SIZES|)
  {
    cands := [];
    var b := 0;
    while b < |BASE_SIZES|
      invariant 0 <= b <= |BASE_SIZES|
      invariant cands == CandidatesUpTo(s, b)
    {
      var found := BaseCandidates(s, b);
      cands := cands + found;
      b := b + 1;
    }
  }

  /** The inner loop of `detect_rectangular_frames`: every aspect ratio for one base size. */
  method BaseCandidates(s: Sheet, b: nat) returns (found: seq<Candidate>)
    requires b < |BASE_SIZES|
    ensures found == CandidatesOfBase(s, b, |COMMON_ASPECT_RATIOS|)
  {
    found := [];
    var a := 0;
    while a < |COMMON_ASPECT_RATIOS|
      invariant 0 <= a <= |COMMON_ASPECT_RATIOS|
      invariant found == CandidatesOfBase(s, b, a)
    {
      var c := CandidateFor(s, b, a);
      var fw, fh := c.frameWidth, c.frameHeight;
      CandidateSidesPositive(s, b, a);
      assert CandidatesOfBase(s, b, a + 1) == found + (if Admissible(s, c) then [c] else []);
      if s.width % fw == 0 && s.height % fh == 0 && fw <= s.width && fh <= s.height {
        if MIN_REASONABLE_FRAMES <= c.totalFrames <= MAX_REASONABLE_FRAMES {
          found := found + [c];
        }
      }
      a := a + 1;
    }
  }

  /** Every base size and every ratio is positive, so every candidate frame is. */
  lemma CandidateSidesPositive(s: Sheet, b: int, a: int)
    requires 0 <= b < |BASE_SIZES| && 0 <= a < |COMMON_ASPECT_RATIOS|
    ensures CandidateFor(s, b, a).frameWidth > 0 && CandidateFor(s, b, a).frameHeight > 0
  {
    var base, ratio := BASE_SIZES[b], COMMON_ASPECT_RATIOS[a];
    assert base > 0 && ratio.0 > 0 && ratio.1 > 0;
    PositiveProduct(base, ratio.0);
    PositiveProduct(base, ratio.1);
  }

  lemma PositiveProduct(x: int, y: int)
    requires x > 0 && y > 0
    ensures x * y > 0
  {
  }

  /** c is the admissible candidate of base size b and one of the first na ratios. */
  ghost predicate OfBase(s: Sheet, b: int, na: nat, c: Candidate)
    requires 0 <= b < |BASE_SIZES| && na <= |COMMON_ASPECT_RATIOS|
  {
    exists a :: 0 <= a < na && c == CandidateFor(s, b, a) && Admissible(s, c)
  }

  /** c is the admissible candidate of one of the first nb base sizes and some ratio. */
  ghost predicate OfSizes(s: Sheet, nb: nat, c: Candidate)
    requires nb <= |BASE_SIZES|
  {
    exists b :: 0 <= b < nb && OfBase(s, b, |COMMON_ASPECT_RATIOS|, c)
  }

  lemma OfBaseStep(s: Sheet, b: int, na: nat, c: Candidate)
    requires 0 <= b < |BASE_SIZES| && 0 < na <= |COMMON_ASPECT_RATIOS|
    ensures OfBase(s, b, na, c) <==>
      OfBase(s, b, na - 1, c) || (c == CandidateFor(s, b, na - 1) && Admissible(s, c))
  {
    if OfBase(s, b, na, c) {
      var a :| 0 <= a < na && c == CandidateFor(s, b, a) && Admissible(s, c);
      if a < na - 1 {
        assert OfBase(s, b, na - 1, c);
      }
    }
    if OfBase(s, b, na - 1, c) {
      var a :| 0 <= a < na - 1 && c == CandidateFor(s, b, a) && Admissible(s, c);
      assert OfBase(s, b, na, c);
    }
    if c == CandidateFor(s, b, na - 1) && Admissible(s, c) {
      assert OfBase(s, b, na, c);
    }
  }

  lemma OfSizesStep(s: Sheet, nb: nat, c: Candidate)
    requires 0 < nb <= |BASE_SIZES|
    ensures OfSizes(s, nb, c) <==> OfSizes(s, nb - 1, c) || OfBase(s, nb - 1, |COMMON_ASPECT_RATIOS|, c)
  {
    if OfSizes(s, nb, c) {
      var b :| 0 <= b < nb && OfBase(s, b, |COMMON_ASPECT_RATIOS|, c);
      if b < nb - 1 {
        assert OfSizes(s, nb - 1, c);
      }
    }
    if OfSizes(s, nb - 1, c) {
      var b :| 0 <= b < nb - 1 && OfBase(s, b, |COMMON_ASPECT_RATIOS|, c);
      assert OfSizes(s, nb, c);
    }
    if OfBase(s, nb - 1, |COMMON_ASPECT_RATIOS|, c) {
      assert OfSizes(s, nb, c);
    }
  }

  lemma {:induction false} CandidatesOfBaseExact(s: Sheet, b: int, na: nat)
    requires 0 <= b < |BASE_SIZES| && na <= |COMMON_ASPECT_RATIOS|
    ensures forall c :: c in CandidatesOfBase(s, b, na) <==> OfBase(s, b, na, c)
  {
    if na > 0 {
      CandidatesOfBaseExact(s, b, na - 1);
      forall c
        ensures c in CandidatesOfBase(s, b, na) <==> OfBase(s, b, na, c)
      {
        OfBaseStep(s, b, na, c);
      }
    }
  }

  /** Appending exactly the candidates of base size nb - 1 extends the exact list of the sizes before it. */
  lemma SizesAppend(s: Sheet, nb: nat, earlier: seq<Candidate>, latest: seq<Candidate>)
    requires 0 < nb <= |BASE_SIZES|
    requires forall c :: c in earlier <==> OfSizes(s, nb - 1, c)
    requires forall c :: c in latest <==> OfBase(s, nb - 1, |COMMON_ASPECT_RATIOS|, c)
    ensures forall c :: c in earlier + latest <==> OfSizes(s, nb, c)
  {
    forall c
      ensures c in earlier + latest <==> OfSizes(s, nb, c)
    {
      OfSizesStep(s, nb, c);
    }
  }

  /** The list holds exactly the admissible candidates of the sizes tried so far. */
  lemma {:induction false} CandidatesUpToExact(s: Sheet, nb: nat)
    requires nb <= |BASE_SIZES|
    ensures forall c :: c in CandidatesUpTo(s, nb) <==> OfSizes(s, nb, c)
  {
    if nb > 0 {
      CandidatesUpToExact(s, nb - 1);
      CandidatesOfBaseExact(s, nb - 1, |COMMON_ASPECT_RATIOS|);
      SizesAppend(s, nb, CandidatesUpTo(s, nb - 1), CandidatesOfBase(s, nb - 1, |COMMON_ASPECT_RATIOS|));
    }
  }

  lemma ExactQuotient(n: int, d: int)
    requires d > 0 && n % d == 0
    ensures (n / d) * d == n
  {
  }

  /**
   * Every listed candidate tiles the sheet exactly into a sensible number
   * of frames, and every size and ratio that does so is listed.
   */
  lemma CandidatesTileSheet(s: Sheet)
    ensures forall c :: c in CandidatesUpTo(s, |BASE_SIZES|) ==>
      Admissible(s, c) && c.framesX * c.frameWidth == s.width && c.framesY * c.frameHeight == s.height
    ensures forall b, a :: 0 <= b < |BASE_SIZES| && 0 <= a < |COMMON_ASPECT_RATIOS| ==>
      (Admissible(s, CandidateFor(s, b, a)) <==> CandidateFor(s, b, a) in CandidatesUpTo(s, |BASE_SIZES|))
  {
    CandidatesUpToExact(s, |BASE_SIZES|);
    forall c | c in CandidatesUpTo(s, |BASE_SIZES|)
      ensures Admissible(s, c) && c.framesX * c.frameWidth == s.width && c.framesY * c.frameHeight == s.height
    {
      var b :| 0 <= b < |BASE_SIZES| && OfBase(s, b, |COMMON_ASPECT_RATIOS|, c);
      var a :| 0 <= a < |COMMON_ASPECT_RATIOS| && c == CandidateFor(s, b, a) && Admissible(s, c);
      ExactQuotient(s.width, c.frameWidth);
      ExactQuotient(s.height, c.frameHeight);
    }
    forall b, a | 0 <= b < |BASE_SIZES| && 0 <= a < |COMMON_ASPECT_RATIOS| && Admissible(s, CandidateFor(s, b, a))
      ensures CandidateFor(s, b, a) in CandidatesUpTo(s, |BASE_SIZES|)
    {
      assert OfBase(s, b, |COMMON_ASPECT_RATIOS|, CandidateFor(s, b, a));
      assert OfSizes(s, |BASE_SIZES|, CandidateFor(s, b, a));
    }
  }

  // ----- Tally of content dimensions -----

  datatype Dim = Dim(width: int, height: int)
  datatype DimCount = DimCount(dim: Dim, count: nat)

  function DimOf(r: (int, int, int, int)): Dim { Dim(r.2, r.3) }

  /** How many of the boxes have dimension d. */
  function Occurrences(bounds: seq<(int, int, int, int)>, d: Dim): nat
  {
    if |bounds| == 0 then 0
    else Occurrences(bounds[..|bounds| - 1], d) + (if DimOf(bounds[|bounds| - 1]) == d then 1 else 0)
  }

  function SumCounts(items: seq<DimCount>): nat
  {
    if |items| == 0 then 0 else SumCounts(items[..|items| - 1]) + items[|items| - 1].count
  }

  predicate NonIncreasing(items: seq<DimCount>)
  {
    forall i, j :: 0 <= i < j < |items| ==> items[i].count >= items[j].count
  }

  predicate DistinctDims(items: seq<DimCount>)
  {
    forall i, j :: 0 <= i < j < |items| ==> items[i].dim != items[j].dim
  }

  lemma {:induction false} SumCountsAppend(a: seq<DimCount>, b: seq<DimCount>)
    ensures SumCounts(a + b) == SumCounts(a) + SumCounts(b)
  {
    if |b| > 0 {
      SumCountsAppend(a, b[..|b| - 1]);
      assert (a + b)[..|a + b| - 1] == a + b[..|b| - 1];
    } else {
      assert a + b == a;
    }
  }

  /** Replacing one entry's count by one more adds one to the total. */
  lemma {:induction false} SumCountsBump(items: seq<DimCount>, k: int)
    requires 0 <= k < |items|
    ensures SumCounts(items[k := DimCount(items[k].dim, items[k].count + 1)]) == SumCounts(items) + 1
  {
    var bumped := items[k := DimCount(items[k].dim, items[k].count + 1)];
    if k == |items| - 1 {
      assert bumped[..|bumped| - 1] == items[..|items| - 1];
    } else {
      SumCountsBump(items[..|items| - 1], k);
      assert bumped[..|bumped| - 1] == items[..|items| - 1][k := DimCount(items[k].dim, items[k].count + 1)];
    }
  }

  /** The dimensions the tally lists. */
  ghost function Listed(items: seq<DimCount>): set<Dim>
  {
    set i | 0 <= i < |items| :: items[i].dim
  }

  /** The dimensions the boxes have. */
  ghost function DimsIn(bounds: seq<(int, int, int, int)>): set<Dim>
  {
    set k | 0 <= k < |bounds| :: DimOf(bounds[k])
  }

  /** items is the tally of the boxes in `prefix`. */
  ghost predicate TallyOf(items: seq<DimCount>, prefix: seq<(int, int, int, int)>)
  {
    DistinctDims(items) &&
    (forall i :: 0 <= i < |items| ==> items[i].count == Occurrences(prefix, items[i].dim) > 0) &&
    Listed(items) == DimsIn(prefix) &&
    SumCounts(items) == |prefix|
  }

  /** One more box counts once more towards its own dimension and no other. */
  lemma OccurrencesExtend(bounds: seq<(int, int, int, int)>, n: int, d: Dim)
    requires 0 <= n < |bounds|
    ensures Occurrences(bounds[..n + 1], d) == Occurrences(bounds[..n], d) + (if DimOf(bounds[n]) == d then 1 else 0)
  {
    assert bounds[..n + 1][..n] == bounds[..n];
  }

  /** A box whose dimension is already listed bumps that entry's count. */
  lemma TallyBump(items: seq<DimCount>, bounds: seq<(int, int, int, int)>, n: int, i: int)
    requires 0 <= n < |bounds| && 0 <= i < |items|
    requires TallyOf(items, bounds[..n]) && items[i].dim == DimOf(bounds[n])
    ensures TallyOf(items[i := DimCount(DimOf(bounds[n]), items[i].count + 1)], bounds[..n + 1])
  {
    var d := DimOf(bounds[n]);
    var bumped := items[i := DimCount(d, items[i].count + 1)];
    DimsInExtend(bounds, n);
    SumCountsBump(items, i);
    ListedBump(items, i);
    assert d in Listed(items);
    forall j | 0 <= j < |bumped|
      ensures bumped[j].count == Occurrences(bounds[..n + 1], bumped[j].dim) > 0
    {
      OccurrencesExtend(bounds, n, bumped[j].dim);
    }
  }

  /** A box of a new dimension adds an entry with count one. */
  lemma TallyAppend(items: seq<DimCount>, bounds: seq<(int, int, int, int)>, n: int)
    requires 0 <= n < |bounds| && TallyOf(items, bounds[..n])
    requires forall j :: 0 <= j < |items| ==> items[j].dim != DimOf(bounds[n])
    ensures TallyOf(items + [DimCount(DimOf(bounds[n]), 1)], bounds[..n + 1])
  {
    var d := DimOf(bounds[n]);
    var e := DimCount(d, 1);
    var all := items + [e];
    DimsInExtend(bounds, n);
    assert d !in Listed(items);
    ZeroOccurrences(bounds[..n], d);
    SumCountsAppend(items, [e]);
    assert SumCounts([e]) == 1 by {
      assert [e][..0] == [];
    }
    ListedAppend(items, e);
    forall j | 0 <= j < |all|
      ensures all[j].count == Occurrences(bounds[..n + 1], all[j].dim) > 0
    {
      OccurrencesExtend(bounds, n, all[j].dim);
    }
  }

  /**
   * The loop of lines 566-569: one entry per distinct dimension in order of
   * first appearance, each with the number of boxes of that dimension.
   */
  method TallyDimensions(bounds: seq<(int, int, int, int)>) returns (items: seq<DimCount>)
    ensures DistinctDims(items)
    ensures forall i :: 0 <= i < |items| ==> items[i].count == Occurrences(bounds, items[i].dim) > 0
    ensures Listed(items) == DimsIn(bounds)
    ensures SumCounts(items) == |bounds|
  {
    items := [];
    var n := 0;
    while n < |bounds|
      invariant 0 <= n <= |bounds|
      invariant TallyOf(items, bounds[..n])
    {
      var d := DimOf(bounds[n]);
      var i := 0;
      while i < |items| && items[i].dim != d
        invariant 0 <= i <= |items|
        invariant forall j :: 0 <= j < i ==> items[j].dim != d
      {
        i := i + 1;
      }
      if i < |items| {
        TallyBump(items, bounds, n, i);
        items := items[i := DimCount(d, items[i].count + 1)];
      } else {
        TallyAppend(items, bounds, n);
        items := items + [DimCount(d, 1)];
      }
      n := n + 1;
    }
    assert bounds[..n] == bounds;
  }

  lemma DimsInExtend(bounds: seq<(int, int, int, int)>, n: int)
    requires 0 <= n < |bounds|
    ensures DimsIn(bounds[..n + 1]) == DimsIn(bounds[..n]) + {DimOf(bounds[n])}
  {
    var a, b := bounds[..n + 1], bounds[..n];
    forall x | x in DimsIn(a)
      ensures x in DimsIn(b) + {DimOf(bounds[n])}
    {
      var k :| 0 <= k < |a| && x == DimOf(a[k]);
      if k < n {
        assert a[k] == b[k];
      }
    }
    forall x | x in DimsIn(b)
      ensures x in DimsIn(a)
    {
      var k :| 0 <= k < |b| && x == DimOf(b[k]);
      assert a[k] == b[k];
    }
    assert a[n] == bounds[n];
  }

  lemma ListedBump(items: seq<DimCount>, i: int)
    requires 0 <= i < |items|
    ensures Listed(items[i := DimCount(items[i].dim, items[i].count + 1)]) == Listed(items)
  {
    var bumped := items[i := DimCount(items[i].dim, items[i].count + 1)];
    forall x | x in Listed(items)
      ensures x in Listed(bumped)
    {
      var k :| 0 <= k < |items| && x == items[k].dim;
      assert bumped[k].dim == x;
    }
  }

  lemma ListedAppend(items: seq<DimCount>, e: DimCount)
    ensures Listed(items + [e]) == Listed(items) + {e.dim}
  {
    var all := items + [e];
    forall x | x in Listed(items)
      ensures x in Listed(all)
    {
      var k :| 0 <= k < |items| && x == items[k].dim;
      assert all[k].dim == x;
    }
    assert all[|items|].dim == e.dim;
  }

  /** A dimension no box has occurs zero times. */
  lemma {:induction false} ZeroOccurrences(prefix: seq<(int, int, int, int)>, d: Dim)
    requires d !in DimsIn(prefix)
    ensures Occurrences(prefix, d) == 0
  {
    if |prefix| > 0 {
      var init := prefix[..|prefix| - 1];
      forall x | x in DimsIn(init)
        ensures x in DimsIn(prefix)
      {
        var k :| 0 <= k < |init| && x == DimOf(init[k]);
        assert init[k] == prefix[k];
      }
      ZeroOccurrences(init, d);
      assert DimOf(prefix[|prefix| - 1]) in DimsIn(prefix);
    }
  }

  /**
   * Stable insertion of one entry into a list sorted by decreasing count: it
   * goes after every entry with a count at least its own, as Python's stable
   * `sorted(..., reverse=True)` places it.
   */
  function InsertByCount(sorted: seq<DimCount>, e: DimCount): (r: seq<DimCount>)
    requires NonIncreasing(sorted)
    ensures NonIncreasing(r)
    ensures forall x :: x in r ==> x in sorted || x == e
  {
    if |sorted| == 0 then [e]
    else if sorted[0].count < e.count then [e] + sorted
    else
      var rest := InsertByCount(sorted[1..], e);
      assert forall k :: 0 <= k < |rest| ==> rest[k] in sorted[1..] || rest[k] == e;
      [sorted[0]] + rest
  }

  lemma {:induction false} InsertByCountMultiset(sorted: seq<DimCount>, e: DimCount)
    requires NonIncreasing(sorted)
    ensures multiset(InsertByCount(sorted, e)) == multiset(sorted) + multiset{e}
  {
    if |sorted| > 0 && sorted[0].count >= e.count {
      InsertByCountMultiset(sorted[1..], e);
      assert sorted == [sorted[0]] + sorted[1..];
    }
  }

  lemma {:induction false} InsertByCountSum(sorted: seq<DimCount>, e: DimCount)
    requires NonIncreasing(sorted)
    ensures SumCounts(InsertByCount(sorted, e)) == SumCounts(sorted) + e.count
  {
    assert [e][..0] == [];
    if |sorted| == 0 {
    } else if sorted[0].count < e.count {
      SumCountsAppend([e], sorted);
    } else {
      var rest := InsertByCount(sorted[1..], e);
      InsertByCountSum(sorted[1..], e);
      assert sorted == [sorted[0]] + sorted[1..];
      assert [sorted[0]][..0] == [];
      SumCountsAppend([sorted[0]], sorted[1..]);
      SumCountsAppend([sorted[0]], rest);
    }
  }

  /**
   * `_calculate_common_dimensions`: the tally sorted by decreasing count.
   * Every dimension appears once, with its number of boxes, and the counts
   * add up to the number of boxes.
   */
  method CalculateCommonDimensions(bounds: seq<(int, int, int, int)>) returns (result: seq<DimCount>)
    ensures |bounds| == 0 ==> result == []
    ensures NonIncreasing(result)
    ensures SumCounts(result) == |bounds|
    ensures forall i :: 0 <= i < |result| ==> result[i].count == Occurrences(bounds, result[i].dim) > 0
    ensures Listed(result) == DimsIn(bounds)
  {
    if |bounds| == 0 {
      return [];
    }
    var items := TallyDimensions(bounds);
    result := SortByCount(items);
    SamePermutation(items, result);
    forall j | 0 <= j < |result|
      ensures result[j].count == Occurrences(bounds, result[j].dim) > 0
    {
      assert result[j] in multiset(items);
    }
  }

  /** Stable sort by decreasing count, one insertion at a time. */
  method SortByCount(items: seq<DimCount>) returns (result: seq<DimCount>)
    ensures NonIncreasing(result)
    ensures multiset(result) == multiset(items)
    ensures SumCounts(result) == SumCounts(items)
  {
    result := [];
    var i := 0;
    while i < |items|
      invariant 0 <= i <= |items|
      invariant NonIncreasing(result)
      invariant multiset(result) == multiset(items[..i])
      invariant SumCounts(result) == SumCounts(items[..i])
    {
      assert items[..i + 1] == items[..i] + [items[i]];
      SumCountsAppend(items[..i], [items[i]]);
      assert SumCounts([items[i]]) == items[i].count by {
        assert [items[i]][..0] == [];
      }
      InsertByCountSum(result, items[i]);
      InsertByCountMultiset(result, items[i]);
      result := InsertByCount(result, items[i]);
      i := i + 1;
    }
    assert items[..i] == items;
  }

  /** Two orderings of the same entries list the same dimensions. */
  lemma SamePermutation(a: seq<DimCount>, b: seq<DimCount>)
    requires multiset(a) == multiset(b)
    ensures Listed(a) == Listed(b)
  {
    forall x | x in Listed(a)
      ensures x in Listed(b)
    {
      var t :| 0 <= t < |a| && a[t].dim == x;
      assert a[t] in multiset(b);
      var j :| 0 <= j < |b| && b[j] == a[t];
    }
    forall x | x in Listed(b)
      ensures x in Listed(a)
    {
      var j :| 0 <= j < |b| && b[j].dim == x;
      assert b[j] in multiset(a);
      var t :| 0 <= t < |a| && a[t] == b[j];
    }
  }

  // ----- Consistency of a detection result -----

  datatype DetectionResult = DetectionResult(
    frameWidth: int, frameHeight: int, offsetX: int, offsetY: int, spacingX: int, spacingY: int)

  datatype ConsistencyError = InvalidDimensions | ExceedsWidth | ExceedsHeight | TooFewFrames | TooManyFrames

  /** The frame count the check expects: the grid-layout formula on the space after the offsets. */
  function ExpectedFrames(s: Sheet, d: DetectionResult): int
    requires d.frameWidth > 0 && d.frameHeight > 0
  {
    CellsAlong(s.width - d.offsetX, d.frameWidth, d.spacingX) *
    CellsAlong(s.height - d.offsetY, d.frameHeight, d.spacingY)
  }

  /** The per-axis frame count of `_validate_detection_consistency`: the grid formula again. */
  function FramesOnAxis(available: int, size: int, spacing: int): (n: int)
    requires size > 0
    ensures n == CellsAlong(available, size, spacing)
  {
    if spacing > 0 then (available + spacing) / (size + spacing) else available / size
  }

  /** `_validate_detection_consistency`: None when the parameters work together. */
  function ValidateDetectionConsistency(s: Sheet, d: DetectionResult): (r: Option<ConsistencyError>)
    ensures r.None? <==>
      d.frameWidth > 0 && d.frameHeight > 0 &&
      d.offsetX + d.frameWidth <= s.width && d.offsetY + d.frameHeight <= s.height &&
      MIN_REASONABLE_FRAMES <= ExpectedFrames(s, d) <= MAX_REASONABLE_FRAMES
    ensures d.frameWidth <= 0 || d.frameHeight <= 0 ==> r == Some(InvalidDimensions)
  {
    if d.frameWidth <= 0 || d.frameHeight <= 0 then Some(InvalidDimensions)
    else if d.offsetX + d.frameWidth > s.width then Some(ExceedsWidth)
    else if d.offsetY + d.frameHeight > s.height then Some(ExceedsHeight)
    else
      var framesX := FramesOnAxis(s.width - d.offsetX, d.frameWidth, d.spacingX);
      var framesY := FramesOnAxis(s.height - d.offsetY, d.frameHeight, d.spacingY);
      var expected := framesX * framesY;
      if expected < MIN_REASONABLE_FRAMES then Some(TooFewFrames)
      else if expected > MAX_REASONABLE_FRAMES then Some(TooManyFrames)
      else None
  }

  /**
   * A consistent result with non-negative offsets and spacings describes a
   * grid that extraction accepts and slices into the expected number of frames.
   */
  lemma ConsistentResultExtracts(s: Sheet, d: DetectionResult)
    requires ValidateDetectionConsistency(s, d).None?
    requires InRange(GridConfig(d.frameWidth, d.frameHeight, d.offsetX, d.offsetY, d.spacingX, d.spacingY))
    ensures var c := GridConfig(d.frameWidth, d.frameHeight, d.offsetX, d.offsetY, d.spacingX, d.spacingY);
      var g := GridLayoutFor(Some(s), c);
      g.Some? && g.value.totalFrames == ExpectedFrames(s, d) &&
      MIN_REASONABLE_FRAMES <= g.value.totalFrames <= MAX_REASONABLE_FRAMES
  {
  }
}
