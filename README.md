# NewSpri core, modelled in Dafny

NewSpri is a desktop sprite-sheet viewer. It loads a sprite sheet, cuts it into frames (on a regular grid or around connected components), animates them, lets the user group frames into named animation segments, and exports frames or a re-packed sheet. This project models the logic underneath the Qt widgets and proves properties of it. The logic covers:

- the integer geometry of slicing and auto-detection;
- the segment table and the frame-selection set algebra;
- the export layout arithmetic;
- the small state machines and validators around them: playback, the segment preview player, CCL mode switching, shortcuts, actions, filename validation and export selection.

One Dafny module per source file:

| file | module | models |
|---|---|---|
| wrappers.dfy | Wrappers | `Option` and `Result` |
| config.dfy | Config | the constants the core reads from `config.py` |
| geometry.dfy | Geometry | rectangles, Python floor division and `math.ceil(a / b)` |
| py_dict.dfy | PyDict | an insertion-ordered Python `dict` as a list of distinct-key pairs |
| strings.dfy | Strings | `str.strip`, `str.upper`, `str(int)` and `int(str)` |
| sprite_extraction.dfy | SpriteExtraction | `sprite_model/sprite_extraction.py` |
| sprite_detection.dfy | SpriteDetection | `sprite_model/sprite_detection.py` |
| sprite_model.dfy | SpriteModel | `sprite_model.py` |
| animation_controller.dfy | AnimationController | `core/animation_controller.py` |
| segment_manager.dfy | SegmentManager | `managers/animation_segment_manager.py` |
| grid_view.dfy | GridView | `ui/animation_grid_view.py` |
| segment_preview.dfy | SegmentPreview | `ui/animation_segment_preview.py` |
| sprite_ccl.dfy | SpriteCcl | `sprite_model/sprite_ccl.py` |
| shortcut_manager.dfy | Shortcuts | `managers/shortcut_manager.py` |
| action_manager.dfy | Actions | `managers/action_manager.py` |
| frame_exporter.dfy | FrameExporter | `export/core/frame_exporter.py` |
| sprite_preview_widget.dfy | SpritePreview | `export/widgets/sprite_preview_widget.py` |
| validation_widgets.dfy | Validation | `ui/validation_widgets.py` |
| selection_widgets.dfy | Selection | `export/widgets/selection_widgets.py` |

Representation choices:

- Images are two-dimensional arrays:
  - alpha values indexed `[y, x]` for margin scanning;
  - 32-bit ARGB values for colour keying.
- Qt's "copy rectangle" calls become integer rectangles.
- Objects whose fields the source updates in place are classes with `modifies` frames.
- Python dicts are fields of type `Dict`. Methods reassign them, and insertion order is kept, because `has_overlapping_segments`, `detect_conflicts` and the action queries depend on it.
- Qt timers are modelled as calls: a timer tick is a method call, and a running timer is a boolean with its interval.
- Callbacks into code outside the core are parameters. These include CCL detection and background-colour detection, and the float auto-layout choice.

## Model

| member | source | states |
|---|---|---|
| Geometry.FloorDiv | sprite_model/sprite_extraction.py:199-209 | Python `a // b`: the quotient q with q*b <= a < (q+1)*b for a positive divisor, rounding toward minus infinity for a negative one |
| Geometry.CeilDiv | export/core/frame_exporter.py:341-345 | `math.ceil(a / b)`: the least q with q*b >= a |
| Strings.StripIsTrimmedSlice | managers/animation_segment_manager.py:79-80 | `s.strip()` is a slice of s with no white space at either end, and everything cut off is white space |
| Strings.BlankIffAllSpace | managers/animation_segment_manager.py:79-80 | a name is blank (`not name.strip()`) exactly when every character is white space |
| Strings.StripIdempotent | ui/validation_widgets.py:63-70 | stripping twice is stripping once |
| Strings.Upper | ui/validation_widgets.py:429-436 | upper-casing keeps the length and changes only lower-case letters |
| Strings.DigitsRoundTrip | managers/animation_segment_manager.py:56-67 | the digits of n read back as n |
| Strings.ParseIntRoundTrip | managers/animation_segment_manager.py:56-67 | `int(str(n)) == n` for every int, negative ones included |
| Strings.IntToStringInjective | managers/animation_segment_manager.py:56-67 | different ints have different decimal strings, so JSON cannot merge two hold keys |
| PyDict.PutSpec | managers/animation_segment_manager.py:181-182 | after `d[k] = v`, k maps to v, every other key keeps its value, and the keys stay distinct |
| PyDict.RemoveSpec | managers/animation_segment_manager.py:201-210 | after `del d[k]`, k is gone, every other key keeps its value, and the keys stay distinct |
| PyDict.UpdateSpec | managers/shortcut_manager.py:265-272 | `d.update(e)`: keys of e map to e's values, every other key of d keeps its value |
| SpriteExtraction.ValidateFrameSettings | sprite_model/sprite_extraction.py:105-157 | None exactly when sizes lie in (0, MAX_FRAME_SIZE], offsets and spacings lie in their ranges and, with a sheet, the first frame fits; a non-positive width is reported before a non-positive height, and a reported overflow does overflow the sheet |
| SpriteExtraction.CellsAlongIsLargestFit | sprite_model/sprite_extraction.py:199-209 | the per-axis count `(avail+sp)//(w+sp)` (or `avail//w`) is the largest n whose n cells and n-1 gaps fit |
| SpriteExtraction.GridLayoutCountsFit | sprite_model/sprite_extraction.py:185-217 | the layout total is rows times columns and both counts are maximal |
| SpriteExtraction.GridLayoutFor | sprite_model/sprite_extraction.py:160-182 | None for a missing sheet or invalid settings; otherwise the layout of the space after the offsets |
| SpriteExtraction.RowFramesInside | sprite_model/sprite_extraction.py:86-97 | every rectangle one row emits lies inside the sheet |
| SpriteExtraction.GridFramesInside | sprite_model/sprite_extraction.py:86-97 | extraction never emits a rectangle reaching past the sheet edge |
| SpriteExtraction.RowFramesComplete | sprite_model/sprite_extraction.py:86-97 | when every cell of a row fits, the row's frames are exactly its cells in column order |
| SpriteExtraction.GridFramesComplete | sprite_model/sprite_extraction.py:86-97 | when every cell fits, the frames are exactly the cells in row-major order, cell k at row k/cols and column k%cols |
| SpriteExtraction.ValidGridCellsInside | sprite_model/sprite_extraction.py:185-217 | with settings that validate, every cell of the computed grid lies inside the sheet |
| SpriteExtraction.CellTest | sprite_model/sprite_extraction.py:92 | the source's inline bounds test is the same as lying inside the sheet once offsets and spacings are non-negative |
| SpriteExtraction.ExtractGridFrames | sprite_model/sprite_extraction.py:54-102 | a null sheet and invalid settings fail with their errors, and only they fail; otherwise the frames are the layout's cells in row-major order, as many as the layout's total, each wholly inside the sheet |
| SpriteExtraction.ExtractRow | sprite_model/sprite_extraction.py:87-97 | one row's cells that fit the sheet, left to right |
| SpriteExtraction.HullEncloses | sprite_model/sprite_extraction.py:588-592 | the merged box encloses every box of its group |
| SpriteExtraction.HullTight | sprite_model/sprite_extraction.py:588-592 | each edge of the merged box is an edge of some member, so no smaller box encloses the group |
| SpriteExtraction.Members | sprite_model/sprite_extraction.py:560-593 | the boxes a group of indices names, one per index, in order |
| SpriteExtraction.MergeNearbyComponents | sprite_model/sprite_extraction.py:540-600 | a threshold of 0 or less returns the boxes unchanged; otherwise each output box is the hull of one group, the groups use every input index exactly once, each group's members lie within the threshold of its seed, there are no more outputs than inputs, and the grouping is greedy: each group is seeded by the first box no earlier group took and takes every such box near that seed |
| SpriteExtraction.NearSeedGrouped | sprite_model/sprite_extraction.py:564-583 | in a greedy grouping, every box within the threshold of a group's seed belongs to that group or to an earlier one |
| SpriteExtraction.GrowGroup | sprite_model/sprite_extraction.py:564-583 | a group headed by the seed, of boxes not used before and near the seed, including every such box, all of which are then marked used |
| SpriteExtraction.InsertDistinct | sprite_model/sprite_extraction.py:633 | inserting into a strictly increasing list keeps it strictly increasing and adds exactly x |
| SpriteExtraction.SortedDistinct | sprite_model/sprite_extraction.py:633 | `sorted(set(positions))`: strictly increasing, with exactly the elements of the input |
| SpriteExtraction.GroupPositions | sprite_model/sprite_extraction.py:630-640 | the centres are the floor means of the groups the loop forms from the sorted distinct positions; no positions give no centres, and there are never more centres than positions; consecutive centres lie more than the tolerance apart, and each centre lies between two of the positions |
| SpriteExtraction.SplitSorted | sprite_model/sprite_extraction.py:630-639 | the groups of `Grouped`: they concatenate back to the sorted positions, consecutive members of a group lie at most the tolerance apart, each group ends more than the tolerance before the next, and there is at least one group and at most one per position |
| SpriteExtraction.GroupedSplits | sprite_model/sprite_extraction.py:630-639 | for strictly increasing positions, each position joining the last group when within the tolerance of its end splits them exactly at the gaps above the tolerance, and the last group ends at the last position |
| SpriteExtraction.GroupMeans | sprite_model/sprite_extraction.py:640 | for each group `sum(group) // len(group)`, lying between the group's first and last position |
| SpriteDetection.ColumnHasContent | sprite_model/sprite_detection.py:116-128 | true exactly when some pixel of the column has alpha above the threshold |
| SpriteDetection.RowHasContent | sprite_model/sprite_detection.py:144-156 | true exactly when some pixel of the row has alpha above the threshold |
| SpriteDetection.DetectRawMargins | sprite_model/sprite_detection.py:102-172 | each margin is the number of empty columns or rows met from that edge before the first one holding content, and every counted line is empty |
| SpriteDetection.LargestAligned | sprite_model/sprite_detection.py:218-226 | the largest margin below the bound that leaves a whole number of frames, or None when none does |
| SpriteDetection.ReduceForCleanDivision | sprite_model/sprite_detection.py:218-236 | a margin leaving a ragged remainder is replaced by the largest smaller aligned margin, or kept when none aligns; an aligned margin is kept; the result never exceeds the input |
| SpriteDetection.Finish | sprite_model/sprite_detection.py:238-253 | strip margins are capped at 5, and margins of 2 or less become 0 |
| SpriteDetection.ValidateMargins | sprite_model/sprite_detection.py:175-260 | the validated margins are the raw ones reset when above a quarter of their side, aligned to the frame size when it is known, then finished; they lie between 0 and the raw ones, are 0 or above 2, and at most 5 on a strip |
| SpriteDetection.DetectMargins | sprite_model/sprite_detection.py:52-99 | a null sheet fails and only it does; otherwise the result is the validation of the measured left and top margins (the first column and row holding content), so each covers only empty lines, stays within the sheet, is 0 or above 2, and is at most 5 on a strip |
| SpriteDetection.MarginsUnique | sprite_model/sprite_detection.py:102-172 | the measured left and top margins are determined by the image: the first column and the first row holding content |
| SpriteDetection.GcdDividesBoth | sprite_model/sprite_detection.py:297-299 | the gcd of the sheet sides divides both |
| SpriteDetection.MultipleHasNoRemainder | sprite_model/sprite_detection.py:282-293 | a multiple of g leaves no remainder when divided by g |
| SpriteDetection.FirstReasonable | sprite_model/sprite_detection.py:282-294 | the first listed square size that divides the sheet into a sensible frame count, with no earlier size doing so |
| SpriteDetection.DetectFrameSize | sprite_model/sprite_detection.py:263-301 | on success the size divides both sheet sides: it is the first sensible listed size, or else the gcd when that is at least the minimum sprite size |
| SpriteDetection.RectangularCandidates | sprite_model/sprite_detection.py:330-349 | the candidates are exactly the admissible (size, ratio) pairs, in loop order |
| SpriteDetection.BaseCandidates | sprite_model/sprite_detection.py:329-349 | the inner loop yields exactly the admissible ratios of one base size, in order |
| SpriteDetection.CandidatesOfBaseExact | sprite_model/sprite_detection.py:330-349 | for one base size the list holds exactly the admissible ratios tried |
| SpriteDetection.CandidatesUpToExact | sprite_model/sprite_detection.py:330-349 | the list holds exactly the admissible candidates of the sizes tried so far |
| SpriteDetection.CandidatesTileSheet | sprite_model/sprite_detection.py:334-349 | every candidate tiles the sheet exactly into a frame count within [MIN, MAX], and every size and ratio that does so is listed |
| SpriteDetection.TallyDimensions | sprite_model/sprite_detection.py:566-569 | one entry per distinct dimension, each with its number of boxes, with counts summing to the number of boxes |
| SpriteDetection.ZeroOccurrences | sprite_model/sprite_detection.py:566-569 | a dimension no box has occurs zero times |
| SpriteDetection.InsertByCount | sprite_model/sprite_detection.py:571-574 | stable insertion into a list sorted by decreasing count keeps it sorted |
| SpriteDetection.InsertByCountMultiset | sprite_model/sprite_detection.py:571-574 | insertion adds exactly the one entry |
| SpriteDetection.InsertByCountSum | sprite_model/sprite_detection.py:571-574 | insertion adds the entry's count to the total |
| SpriteDetection.SortByCount | sprite_model/sprite_detection.py:571-574 | the result is sorted by decreasing count and is a permutation of the input |
| SpriteDetection.SamePermutation | sprite_model/sprite_detection.py:571-574 | two orderings of the same entries list the same dimensions and the same total |
| SpriteDetection.CalculateCommonDimensions | sprite_model/sprite_detection.py:550-579 | each dimension appears once with its number of boxes; counts sum to the input length and are non-increasing |
| SpriteDetection.ValidateDetectionConsistency | sprite_model/sprite_detection.py:1025-1089 | rejects a non-positive size, a frame reaching past the sheet, and a frame count outside [MIN, MAX]; None exactly when none applies |
| SpriteDetection.FramesOnAxis | sprite_model/sprite_detection.py:1063-1075 | the per-axis count is the same grid formula frame extraction uses |
| SpriteDetection.ConsistentResultExtracts | sprite_model/sprite_detection.py:1040-1086 | a consistent result with non-negative offsets and spacings passes extraction's validation and slices into the frame count the check expects |
| SpriteModel.ValidateFrameSettings | sprite_model.py:228-252 | rejects non-positive or over-max sizes and, with a sheet, frames larger than it; None exactly when none applies |
| SpriteModel.FramesAlong | sprite_model.py:186-206 | `(length - offset) // size` frames fit after the offset, and 0 when that is negative |
| SpriteModel.Slices | sprite_model.py:186-206 | the slicing has `cols * rows` frames, and frame k is the rectangle at row k/cols, column k%cols |
| SpriteModel.SlicesInside | sprite_model.py:186-206 | with non-negative offsets every sliced frame lies inside the sheet |
| SpriteModel.FramesApart | sprite_model.py:186-206 | two different frames of a slicing never overlap |
| SpriteModel.SlicesApart | sprite_model.py:186-206 | two different frames of the sheet's slicing never overlap |
| SpriteModel.Advance | sprite_model.py:373-397 | one step wraps to 0 after the last frame when looping; otherwise it stays on the last frame and reports that playback stops |
| SpriteModel.AdvanceTimesWraps | sprite_model.py:373-397 | k looping steps from frame c land on `(c + k) mod n` |
| SpriteModel.FullCycleReturns | sprite_model.py:373-397 | n looping steps return to the starting frame |
| SpriteModel.SliceSheet | sprite_model.py:186-206 | the nested loop cuts exactly the row-major slicing |
| SpriteModel.SpriteModel.constructor | sprite_model.py:36-85 | no sheet, no frames, frame 0, paused, looping, the default fps and frame size, zero offsets |
| SpriteModel.SpriteModel.LoadSpriteSheet | sprite_model.py:87-130 | the new sheet is stored and the cursor rewinds to 0 |
| SpriteModel.SpriteModel.ClearSpriteData | sprite_model.py:138-157 | no sheet, no frames, frame 0, paused |
| SpriteModel.SpriteModel.ExtractFrames | sprite_model.py:159-226 | without a sheet or with invalid sizes nothing changes; otherwise the frames are the `((W-ox)//w) x ((H-oy)//h)` row-major slicing and the cursor is 0 |
| SpriteModel.SpriteModel.SetCurrentFrame | sprite_model.py:362-371 | the cursor moves exactly when 0 <= f < n |
| SpriteModel.SpriteModel.NextFrame | sprite_model.py:373-397 | the cursor takes one Advance step; with no frames nothing moves |
| SpriteModel.SpriteModel.PreviousFrame | sprite_model.py:399-404 | the cursor decrements only from a frame after the first |
| SpriteModel.SpriteModel.FirstFrame | sprite_model.py:406-411 | the cursor is 0 |
| SpriteModel.SpriteModel.LastFrame | sprite_model.py:413-422 | the cursor is n-1, or stays 0 with no frames |
| SpriteModel.SpriteModel.Play | sprite_model.py:424-430 | fails and changes nothing with no frames; otherwise playing |
| SpriteModel.SpriteModel.Pause | sprite_model.py:432-435 | not playing; the cursor is kept |
| SpriteModel.SpriteModel.Stop | sprite_model.py:437-443 | not playing and back on frame 0 |
| SpriteModel.SpriteModel.TogglePlayback | sprite_model.py:445-451 | the returned state is the new one: playing stops, and a stopped model starts exactly when it has frames |
| SpriteModel.SpriteModel.SetFps | sprite_model.py:453-458 | accepted exactly when the rate lies in [MIN_FPS, MAX_FPS]; a rejected rate changes nothing |
| SpriteModel.SpriteModel.SetLoopEnabled | sprite_model.py:460-466 | stores the loop flag |
| AnimationController.Truncate | core/animation_controller.py:196-201 | `int()` of a finite float: truncation toward zero, within one of the value |
| AnimationController.FpsAsInt | core/animation_controller.py:186-201 | non-numbers, NaN and infinities are rejected; ints pass unchanged, booleans count as 1 and 0, and floats are truncated |
| AnimationController.RoundDiv | core/animation_controller.py:250-261 | Python `round(n / d)`: the nearest integer, ties to the even one |
| AnimationController.TimerInterval | core/animation_controller.py:238-264 | the rounded period of the rate, clamped to [1000 // MAX_FPS, 1000 // MIN_FPS] |
| AnimationController.IntervalIsNearestPeriod | core/animation_controller.py:250-261 | within [MIN_FPS, MAX_FPS] the clamp never bites, so the interval is the nearest whole millisecond to the period |
| AnimationController.AnimationController.constructor | core/animation_controller.py:47-99 | active, not playing, no timer running, and the rate and loop mode read from the model |
| AnimationController.AnimationController.SyncStateToModel | core/animation_controller.py:364-380 | the model takes the controller's rate and loop mode |
| AnimationController.AnimationController.SyncStateFromModel | core/animation_controller.py:342-362 | the controller takes the model's rate when it is in range (the default otherwise) and its loop mode |
| AnimationController.AnimationController.CalculateTimerInterval | core/animation_controller.py:238-264 | the interval for the current rate, changing nothing |
| AnimationController.AnimationController.StartAnimation | core/animation_controller.py:115-140 | fails, changing nothing, when inactive or without frames; otherwise playing with the timer at the current interval |
| AnimationController.AnimationController.PauseAnimation | core/animation_controller.py:142-151 | acts only while playing: the timer stops and the frame is kept |
| AnimationController.AnimationController.StopAnimation | core/animation_controller.py:153-166 | acts only while playing: the timer stops and the model rewinds to frame 0 |
| AnimationController.AnimationController.TogglePlayback | core/animation_controller.py:168-178 | returns the new playing state: a pause when playing, a start attempt otherwise |
| AnimationController.AnimationController.SetFps | core/animation_controller.py:180-224 | rejects non-numbers, NaN, infinities and truncated values outside [MIN_FPS, MAX_FPS], changing nothing; otherwise stores the rate, pushes it to the model and retimes a running timer |
| AnimationController.AnimationController.SetLoopMode | core/animation_controller.py:226-236 | stores the mode and pushes it to the model |
| AnimationController.AnimationController.OnTimerTimeout | core/animation_controller.py:285-311 | while playing, advances the model one frame and pauses when the model says playback does not continue; otherwise does nothing |
| AnimationController.AnimationController.OnModelExtractionCompleted | core/animation_controller.py:399-420 | fewer than two frames pause a running animation |
| AnimationController.AnimationController.OnModelDataLoaded | core/animation_controller.py:382-397 | playback stops and the model's settings are read back |
| AnimationController.AnimationController.OnModelError | core/animation_controller.py:438-450 | playback pauses |
| AnimationController.AnimationController.Shutdown | core/animation_controller.py:101-113 | inactive, not playing, no timer |
| AnimationController.AnimationController.StartAfterShutdown | core/animation_controller.py:101-126 | after shutdown a start is refused |
| SegmentManager.Blank | managers/animation_segment_manager.py:79-80 | a name is blank exactly when it is empty or all white space |
| SegmentManager.Validate | managers/animation_segment_manager.py:69-95 | rejects a blank name, a negative start, an end before the start and, with a limit, a start or an end at or past it; None exactly when none applies |
| SegmentManager.OverlapIsSharedFrame | managers/animation_segment_manager.py:383-387 | for non-empty ranges the inclusive interval test holds exactly when some frame lies in both |
| SegmentManager.IntKeys | managers/animation_segment_manager.py:51-53 | `asdict` keeps the hold entries with their int keys, in order |
| SegmentManager.StringKeys | managers/animation_segment_manager.py:470-472 | JSON writes each hold key as its decimal string and keeps the values and order |
| SegmentManager.ParseKeys | managers/animation_segment_manager.py:65-66 | `int(k)` on every key, or None when one cannot be read |
| SegmentManager.ParseIntKeys | managers/animation_segment_manager.py:56-67 | reading int keys gives them back |
| SegmentManager.ParseStringKeys | managers/animation_segment_manager.py:56-67 | reading the decimal strings JSON wrote gives the original int keys |
| SegmentManager.DictRoundTrip | managers/animation_segment_manager.py:51-67 | `from_dict(to_dict(s)) == s` |
| SegmentManager.JsonRoundTrip | managers/animation_segment_manager.py:51-67 | through JSON the hold keys become strings, and `from_dict` turns them back into the same ints, so every field reads back with its value |
| SegmentManager.OldFormatDefaults | managers/animation_segment_manager.py:56-67 | an entry without bounce mode or holds loads, with bounce off and no holds; one also without tags loads with no tags |
| SegmentManager.ApplyUpdate | managers/animation_segment_manager.py:235-260 | each given field is written and the others are kept |
| SegmentManager.FailedUpdateCorrupts | managers/animation_segment_manager.py:212-268 | as written: an update with a negative start is rejected, yet the stored segment has changed |
| SegmentManager.BlankRenameCorrupts | managers/animation_segment_manager.py:212-268 | as written: writing an all-blank name into a valid segment gives one that validation rejects as blank and that differs from the stored one |
| SegmentManager.PairsWithEmpty | managers/animation_segment_manager.py:353-370 | a segment gets no pairs exactly when it overlaps none of the later segments |
| SegmentManager.NoPairsIffDisjoint | managers/animation_segment_manager.py:353-370 | the overlap list is empty exactly when the segments are pairwise disjoint |
| SegmentManager.PySlice | managers/animation_segment_manager.py:423-426 | Python `xs[a:b]` with negative indices from the end and bounds clamped |
| SegmentManager.SegmentFramesExact | managers/animation_segment_manager.py:407-426 | a valid segment inside the frame list gets exactly its `frame_count` frames, in order |
| SegmentManager.FiledNamesNotEmpty | managers/animation_segment_manager.py:79-80 | a filed segment's name is not blank |
| SegmentManager.PutKeepsFiled | managers/animation_segment_manager.py:515-520 | filing a valid segment under its own name keeps the table filed |
| SegmentManager.RemoveKeepsConsistent | managers/animation_segment_manager.py:201-210 | deleting an entry keeps the rest filed and disjoint |
| SegmentManager.AppendKeepsConsistent | managers/animation_segment_manager.py:154-182 | appending a valid segment that overlaps none keeps the table filed and disjoint |
| SegmentManager.FirstOverlap | managers/animation_segment_manager.py:372-387 | the first entry whose range meets the given inclusive range, or None when none does |
| SegmentManager.ContainingNames | managers/animation_segment_manager.py:389-394 | a name is listed exactly when its entry's range contains the frame |
| SegmentManager.AnimationSegmentManager.constructor | managers/animation_segment_manager.py:107-112 | no segments, no sheet, a frame count of 0, auto-save on |
| SegmentManager.AnimationSegmentManager.SetSpriteContext | managers/animation_segment_manager.py:114-135 | a different sheet clears the table; the frame count is stored either way |
| SegmentManager.AnimationSegmentManager.FindOverlappingSegment | managers/animation_segment_manager.py:372-387 | the loop finds the first overlapping entry |
| SegmentManager.AnimationSegmentManager.AddSegment | managers/animation_segment_manager.py:137-189 | a taken name is refused first; success exactly when the name is free, no stored segment with a truthy name overlaps, and the segment validates; the new segment goes last; a consistent table stays consistent |
| SegmentManager.AnimationSegmentManager.RemoveSegment | managers/animation_segment_manager.py:191-210 | true exactly when the name was present; only that entry goes |
| SegmentManager.AnimationSegmentManager.UpdateSegmentAsWritten | managers/animation_segment_manager.py:212-268 | as written: an unknown name, or a new name held by another segment, is refused with nothing changed; otherwise the fields are written into the stored segment before validation, so a rejected update leaves it changed in place, and an accepted one is filed as in the corrected update |
| SegmentManager.AnimationSegmentManager.UpdateSegment | managers/animation_segment_manager.py:212-268 | an unknown name and a taken new name are refused; a rejected update changes nothing; an accepted one files the validated segment, under the new name when one is given |
| SegmentManager.AnimationSegmentManager.RenameSegment | managers/animation_segment_manager.py:270-281 | a new name taken by another segment is refused and a refusal changes nothing; a success moves the segment, renamed, to the new key |
| SegmentManager.AnimationSegmentManager.RenameSegmentAsWritten | managers/animation_segment_manager.py:270-281 | as written: renaming to an empty or all-blank name is rejected as blank, yet the stored segment keeps the blank name; an unknown old name is refused; a valid new name moves the segment to it |
| SegmentManager.AnimationSegmentManager.SetBounceMode | managers/animation_segment_manager.py:283-303 | sets the flag of a known segment; an unknown name changes nothing |
| SegmentManager.AnimationSegmentManager.SetFrameHolds | managers/animation_segment_manager.py:305-331 | any hold index outside [0, frame_count) is reported and the holds stay unchanged; otherwise the holds are replaced |
| SegmentManager.AnimationSegmentManager.GetSegment | managers/animation_segment_manager.py:333-335 | the segment filed under the name, or None |
| SegmentManager.AnimationSegmentManager.ClearSegments | managers/animation_segment_manager.py:345-351 | the table is empty |
| SegmentManager.AnimationSegmentManager.HasOverlappingSegments | managers/animation_segment_manager.py:353-370 | every overlapping pair, earlier segment first, and none exactly when the segments are disjoint |
| SegmentManager.CollectPairsWith | managers/animation_segment_manager.py:364-370 | the partners of one segment among the later ones, in order; none exactly when it overlaps none of them |
| SegmentManager.AnimationSegmentManager.GetSegmentsContainingFrame | managers/animation_segment_manager.py:389-394 | the names of exactly the segments containing the frame |
| SegmentManager.AnimationSegmentManager.GetSegmentAtFrame | managers/animation_segment_manager.py:396-401 | the first segment containing the frame, or None when none does |
| SegmentManager.AnimationSegmentManager.ExtractFramesForSegment | managers/animation_segment_manager.py:407-426 | nothing for an unknown name; otherwise the segment's clamped slice of the frame list |
| SegmentManager.AnimationSegmentManager.LoadSegments | managers/animation_segment_manager.py:510-523 | the load fails exactly when an entry's hold key cannot be read, leaving the table built from the entries before it; otherwise the table is `Loaded` of the entries, the loaded count and skipped names are those of the entries that convert and do or do not validate, and loaded plus skipped is the number of entries |
| SegmentManager.LoadedFiled | managers/animation_segment_manager.py:510-523 | the loaded table has distinct names, files every segment under its own name as a valid segment, and holds no more segments than entries were accepted |
| SegmentManager.LoadedMembers | managers/animation_segment_manager.py:510-523 | a name is in the loaded table exactly when some entry of that name converts and validates |
| SegmentManager.LoadedLatest | managers/animation_segment_manager.py:510-523 | an accepted entry that no later accepted entry shares a name with is the segment stored under its name |
| SegmentManager.AnimationSegmentManager.StoreIfValid | managers/animation_segment_manager.py:515-523 | a segment is filed under its name exactly when it validates |
| GridView.RangeSet | ui/animation_grid_view.py:58-60 | the integers lo..hi, empty when hi < lo |
| GridView.FrameCountIsRangeSize | ui/animation_grid_view.py:58-60 | a segment's `frame_count` is the number of frames in its range |
| GridView.RangeSelection | ui/animation_grid_view.py:496-503 | the frames from min to max that are below the frame count |
| GridView.RangeSelectionInside | ui/animation_grid_view.py:496-503 | for non-negative clicks the range is [min, max] intersected with [0, n) |
| GridView.Toggled | ui/animation_grid_view.py:485-490 | only the clicked frame's membership flips |
| GridView.ToggleTwice | ui/animation_grid_view.py:485-490 | toggling twice restores the selection |
| GridView.ContiguousIsRange | ui/animation_grid_view.py:608-616 | a contiguous list is exactly first, first+1, ..., first+len-1 |
| GridView.RangeIsContiguous | ui/animation_grid_view.py:608-616 | every such run is contiguous |
| GridView.IsContiguousSelection | ui/animation_grid_view.py:608-616 | false for an empty list; true exactly when each frame is one more than the one before |
| GridView.CandidatesDistinct | ui/animation_grid_view.py:680-697 | different indices give different `base_k` names |
| GridView.AnimationGridView.constructor | ui/animation_grid_view.py:269-291 | no frames, no selection, no segments, not dragging, 8 columns |
| GridView.AnimationGridView.SetFrames | ui/animation_grid_view.py:376-380 | the frame count changes and the selection is kept |
| GridView.AnimationGridView.AdjustColumns | ui/animation_grid_view.py:414-421 | the column count is the old one plus delta, clamped into [1, 20] |
| GridView.AnimationGridView.ToggleFrameSelection | ui/animation_grid_view.py:485-490 | the clicked frame's membership flips; nothing else changes |
| GridView.AnimationGridView.SelectFrameRange | ui/animation_grid_view.py:496-503 | the range is added and the earlier selection kept |
| GridView.AnimationGridView.ClearSelection | ui/animation_grid_view.py:618-632 | no selection, no last click, not dragging, no pre-drag selection |
| GridView.AnimationGridView.OnFrameClicked | ui/animation_grid_view.py:423-458 | Ctrl or Alt toggles, Shift with an earlier click adds the range, any other click selects the frame alone; the frame becomes the last clicked |
| GridView.AnimationGridView.OnDragStartedAsWritten | ui/animation_grid_view.py:464-483 | as written: a drag from an unselected frame selects that frame alone but leaves the view not dragging, with no drag start; a drag from a selected frame proceeds |
| GridView.AnimationGridView.OnDragStarted | ui/animation_grid_view.py:464-483 | a drag from an unselected frame selects it alone; from a selected one it keeps the selection; the drag is in progress either way |
| GridView.AnimationGridView.CtrlPressThenDragAsWritten | ui/animation_grid_view.py:423-483 | as written: a Ctrl- or Alt-press on a selected frame deselects it, and the drag that follows from that frame leaves the view not dragging |
| GridView.AnimationGridView.CtrlPressThenDrag | ui/animation_grid_view.py:423-483 | with the corrected handler, the same press and drag leaves a drag in progress from that frame, with that frame alone selected |
| GridView.AnimationGridView.UpdateDragSelection | ui/animation_grid_view.py:867-887 | the selection is the pre-drag selection united with the dragged range |
| GridView.AnimationGridView.MouseMove | ui/animation_grid_view.py:825-835 | while dragging, a frame under the cursor extends the drag to it; otherwise nothing changes |
| GridView.AnimationGridView.MouseRelease | ui/animation_grid_view.py:837-851 | a left-button release ends the drag and drops the pre-drag selection; the selection is kept |
| GridView.AnimationGridView.GenerateUniqueSegmentName | ui/animation_grid_view.py:680-697 | `base_k` for the smallest unused k in 1..1000; when all are taken, the clock-based fallback |
| GridView.AnimationGridView.AddSegment | ui/animation_grid_view.py:699-702 | the segment is filed under its name, replacing one with the same name |
| GridView.AnimationGridView.DeleteSegment | ui/animation_grid_view.py:730-735 | only the named entry goes |
| GridView.AnimationGridView.RenameSegment | ui/animation_grid_view.py:763-769 | renames exactly when the old name exists and the new one is absent; the renamed segment moves to the new key |
| GridView.AnimationGridView.ClearSegments | ui/animation_grid_view.py:818-823 | no segments |
| GridView.DragKeepsEarlierSelection | ui/animation_grid_view.py:867-887 | {1, 3, 8} dragged from 3 to 5 gives {1, 3, 4, 5, 8} |
| SegmentPreview.Advance | ui/animation_segment_preview.py:272-288 | the next frame stays in [0, n-1], in loop and bounce mode alike, and the hold counter is untouched |
| SegmentPreview.Tick | ui/animation_segment_preview.py:261-290 | a held frame stays, with the counter one higher; any other frame moves to a frame in [0, n-1] |
| SegmentPreview.LoopStep | ui/animation_segment_preview.py:287-288 | in loop mode a frame that is not held moves to the next, wrapping after the last |
| SegmentPreview.HoldLasts | ui/animation_segment_preview.py:264-269 | a frame with hold h, reached with the counter at 0, stays on screen for h ticks while the counter counts up |
| SegmentPreview.HoldReleases | ui/animation_segment_preview.py:264-269 | once the counter has reached the hold, the next tick resets it and advances |
| SegmentPreview.BounceForward | ui/animation_segment_preview.py:272-285 | bouncing forward with no holds walks straight to the last frame |
| SegmentPreview.BounceBackward | ui/animation_segment_preview.py:272-285 | bouncing backward with no holds walks straight to frame 0 |
| SegmentPreview.TicksAdd | ui/animation_segment_preview.py:261-290 | a+b ticks are a ticks then b ticks |
| SegmentPreview.BouncePeriod | ui/animation_segment_preview.py:272-285 | bounce mode is a ping-pong with period 2(n-1) |
| SegmentPreview.SegmentPreviewItem.constructor | ui/animation_segment_preview.py:42-69 | frame 0, paused, 10 fps, forward; a missing holds dict becomes empty |
| SegmentPreview.SegmentPreviewItem.UpdateFrame | ui/animation_segment_preview.py:261-290 | the state after the call is one Tick of the state before |
| SegmentPreview.SegmentPreviewItem.TogglePlayback | ui/animation_segment_preview.py:292-327 | playing flips, and the timer runs exactly while playing |
| SegmentPreview.SegmentPreviewItem.UpdateTimerInterval | ui/animation_segment_preview.py:329-333 | the interval is `1000 // fps` for a positive fps; otherwise unchanged |
| SegmentPreview.SegmentPreviewItem.OnFpsChanged | ui/animation_segment_preview.py:335-338 | stores the rate and retimes |
| SegmentPreview.SegmentPreviewItem.SetPlaying | ui/animation_segment_preview.py:340-343 | toggles only when the requested state differs, so it ends in the requested state |
| SegmentPreview.SegmentPreviewItem.StopPlayback | ui/animation_segment_preview.py:345-350 | paused and back on frame 0 |
| SegmentPreview.SegmentPreviewItem.OnBounceToggled | ui/animation_segment_preview.py:381-387 | sets the mode and turns the direction forward |
| SegmentPreview.SegmentPreviewItem.AddFrameHold | ui/animation_segment_preview.py:428-456 | the 1-based frame number's hold becomes the duration; other holds stay |
| SegmentPreview.SegmentPreviewItem.EditFrameHold | ui/animation_segment_preview.py:458-477 | a positive duration sets the hold and 0 removes it; other holds stay |
| SegmentPreview.SegmentPreviewItem.ClearFrameHolds | ui/animation_segment_preview.py:479-485 | no holds and the counter at 0 |
| SegmentPreview.SegmentPreviewItem.AddHoldToAllFrames | ui/animation_segment_preview.py:487-507 | every frame of the item has the same hold |
| SegmentPreview.PreviewZoom.constructor | ui/animation_segment_preview.py:534-540 | zoom 100% |
| SegmentPreview.PreviewZoom.ZoomIn | ui/animation_segment_preview.py:795-799 | below 200% the zoom grows by 25 points, capped at 200%; it stays in [50%, 200%] |
| SegmentPreview.PreviewZoom.ZoomOut | ui/animation_segment_preview.py:801-805 | above 50% the zoom shrinks by 25 points, floored at 50%; it stays in [50%, 200%] |
| SegmentPreview.PreviewZoom.ButtonsEnabled | ui/animation_segment_preview.py:807-818 | zooming in is offered exactly below 200% (at 175% or less), zooming out exactly above 50% (at 75% or more) |
| SpriteCcl.Kept | sprite_model/sprite_ccl.py:118-138 | no more boxes than given, each lying wholly inside the sheet |
| SpriteCcl.KeptMembers | sprite_model/sprite_ccl.py:118-138 | a box survives exactly when it is one of the boxes and fits the sheet |
| SpriteCcl.KeptAllInside | sprite_model/sprite_ccl.py:118-138 | boxes that all fit are kept unchanged |
| SpriteCcl.KeptIdempotent | sprite_model/sprite_ccl.py:118-138 | filtering twice is filtering once |
| SpriteCcl.KeptDropsOnlyOutside | sprite_model/sprite_ccl.py:118-138 | a box is dropped exactly when x or y is negative or it reaches past the right or bottom edge |
| SpriteCcl.CropInside | sprite_model/sprite_ccl.py:118-138 | the crop loop yields exactly the boxes that fit |
| SpriteCcl.ChannelsOfArgb | sprite_model/sprite_ccl.py:296-311 | the channel extraction recovers the colour an ARGB value was packed from |
| SpriteCcl.KeyedIdempotent | sprite_model/sprite_ccl.py:296-311 | keying an already keyed pixel changes nothing |
| SpriteCcl.KeyedLeavesNoBackground | sprite_model/sprite_ccl.py:296-311 | a pixel left visible is not near the background |
| SpriteCcl.ToleranceMonotone | sprite_model/sprite_ccl.py:296-311 | a larger tolerance clears every pixel a smaller one clears |
| SpriteCcl.ZeroToleranceIsExactColour | sprite_model/sprite_ccl.py:296-311 | at tolerance 0 exactly the pixels of the background colour are cleared |
| SpriteCcl.ApplyBackgroundTransparency | sprite_model/sprite_ccl.py:272-320 | every pixel whose three channels lie within the tolerance becomes transparent, and every other pixel is unchanged |
| SpriteCcl.DetectionFailure | sprite_model/sprite_ccl.py:68-104 | why auto-detection gives up: CCL unavailable, no path, or a failed callback, checked in that order |
| SpriteCcl.CclOperations.constructor | sprite_model/sprite_ccl.py:31-40 | no boxes, unavailable, no background, tolerance 10, ccl mode |
| SpriteCcl.CclOperations.ExtractCclFrames | sprite_model/sprite_ccl.py:42-174 | a null sheet fails; with no boxes stored a successful detection's boxes are stored, with the tolerance capped at 25; the frames are exactly the stored boxes that fit |
| SpriteCcl.CclOperations.SetExtractionModeAsWritten | sprite_model/sprite_ccl.py:176-237 | as written: a failed switch to ccl leaves the mode at ccl; on the ccl branch the stored boxes, availability, background colour and tolerance change exactly as a ccl extraction adopts a detection; the grid branch keeps them |
| SpriteCcl.CclOperations.SetExtractionMode | sprite_model/sprite_ccl.py:176-237 | an unknown mode, or ccl while unavailable, is refused; the mode changes exactly when the re-extraction succeeds, and a failure restores the previous one; on the ccl branch the stored boxes, availability, background colour and tolerance change exactly as a ccl extraction adopts a detection; the grid branch keeps them |
| SpriteCcl.CclOperations.SetCclSpriteBounds | sprite_model/sprite_ccl.py:259-262 | stores the boxes; CCL counts as available exactly when the list is non-empty |
| SpriteCcl.CclOperations.ClearCclData | sprite_model/sprite_ccl.py:264-270 | no boxes, unavailable, no background, tolerance 10, grid mode |
| SpriteCcl.CclOperations.SetCclColorTolerance | sprite_model/sprite_ccl.py:333-335 | the tolerance is clamped into [0, 255] |
| Shortcuts.MakeDefinition | managers/shortcut_manager.py:35-44 | a definition without a key or a description is an error |
| Shortcuts.LoadAllCoherent | managers/shortcut_manager.py:136-140 | a table with distinct ids and keys loads into agreeing dicts naming nothing else |
| Shortcuts.DefaultIdsDistinct | managers/shortcut_manager.py:60-117 | the default table has no repeated id |
| Shortcuts.DefaultKeysDistinct | managers/shortcut_manager.py:60-117 | the default table has no repeated key |
| Shortcuts.DefaultsCoherent | managers/shortcut_manager.py:119-140 | the defaults load into agreeing dicts |
| Shortcuts.RegisterAsWritten | managers/shortcut_manager.py:142-163 | as written: a registration fails exactly when the key is owned by another id, and a failure changes nothing |
| Shortcuts.Register | managers/shortcut_manager.py:142-163 | a registration fails exactly when the key is owned by another id, and a failure changes nothing |
| Shortcuts.Unregister | managers/shortcut_manager.py:165-185 | an unregistration succeeds exactly when the id is registered, and a failure changes nothing |
| Shortcuts.PausedAndPlayingExclusive | managers/shortcut_manager.py:253-263 | a paused-only shortcut and a playing-only one are never active together, and paused needs frames |
| Shortcuts.CoherentKeyPress | managers/shortcut_manager.py:211-241 | with agreeing dicts a key press never fails its lookup, and is handled exactly when a definition for the key is active and has a callback |
| Shortcuts.RegisterKeepsCoherent | managers/shortcut_manager.py:142-163 | registration keeps the dicts agreeing; a successful one maps the id to the definition and the key to the id |
| Shortcuts.RegisterKeepsOthers | managers/shortcut_manager.py:142-163 | registration leaves every other id's definition as it was |
| Shortcuts.RegisterKeepsKeys | managers/shortcut_manager.py:142-163 | registration maps every key as before except the new key and the id's previous key, and a successful re-registration under a new key drops the previous one |
| Shortcuts.UnregisterKeepsCoherent | managers/shortcut_manager.py:165-185 | unregistering keeps the dicts agreeing |
| Shortcuts.ReregisterLeavesStaleKey | managers/shortcut_manager.py:154-185 | as written: re-registering under a new key and then unregistering leaves the old key mapped to a gone id, and pressing it fails the lookup |
| Shortcuts.ReregisterDropsOldKey | managers/shortcut_manager.py:154-185 | with the old key dropped, the same steps leave the old key unbound |
| Shortcuts.OwnersCover | managers/shortcut_manager.py:354-364 | a key has an owner exactly when some definition uses it |
| Shortcuts.OwnersDistinct | managers/shortcut_manager.py:354-364 | the owner map has distinct keys |
| Shortcuts.NoConflictsIffDistinctKeys | managers/shortcut_manager.py:347-364 | no conflict is reported exactly when no two definitions share a key |
| Shortcuts.CoherentHasNoConflicts | managers/shortcut_manager.py:347-364 | agreeing dicts have no conflicts |
| Shortcuts.ShortcutManager.constructor | managers/shortcut_manager.py:119-140 | the defaults, loaded in order and agreeing, and no context flags |
| Shortcuts.ShortcutManager.RegisterShortcutAsWritten | managers/shortcut_manager.py:142-163 | the dicts become RegisterAsWritten of the old ones |
| Shortcuts.ShortcutManager.RegisterShortcut | managers/shortcut_manager.py:142-163 | the dicts become Register of the old ones and keep agreeing |
| Shortcuts.ShortcutManager.UnregisterShortcut | managers/shortcut_manager.py:165-185 | the dicts become Unregister of the old ones; agreeing dicts keep agreeing and no longer hold the id |
| Shortcuts.ShortcutManager.SetShortcutCallback | managers/shortcut_manager.py:187-196 | only a registered id gets the callback |
| Shortcuts.ShortcutManager.HandleKeyPress | managers/shortcut_manager.py:211-241 | never fails its lookup, and reports the key handled exactly when a definition for it is active and has a callback |
| Shortcuts.ShortcutManager.UpdateContext | managers/shortcut_manager.py:265-272 | the given flags override and all others stay |
| Shortcuts.ShortcutManager.DetectConflicts | managers/shortcut_manager.py:347-364 | the conflicts of the registered definitions: none while the dicts agree |
| Actions.MakeActionDefinition | managers/action_manager.py:39-44 | a definition without an id or a text is an error |
| Actions.EnablingIsMonotone | managers/action_manager.py:360-376 | raising flags never disables an action, and an action without a requirement ignores them |
| Actions.DefaultsWithoutContext | managers/action_manager.py:360-376 | with no flags set, a default action is enabled exactly when it needs no context; with frames loaded, every default action is enabled |
| Actions.DisplayText | managers/action_manager.py:248-250 | the icon, a space and the text, or the text alone |
| Actions.ToolTip | managers/action_manager.py:255-262 | no tooltip for an empty one; otherwise the tooltip, followed by the shortcut key when the definition names one |
| Actions.RequiringContext | managers/action_manager.py:431-447 | exactly the ids whose requirement is this context, in order |
| Actions.RequiringContextFollowsFlag | managers/action_manager.py:370-376 | each action listed for a context is enabled exactly when that flag is set, a missing flag counting as false |
| Actions.ActionManager.constructor | managers/action_manager.py:201-223 | the default definitions, loaded in order; no actions yet, no flags |
| Actions.ActionManager.CreateAction | managers/action_manager.py:225-282 | an unknown id is an error; an id already created gives the existing action; otherwise a new action is built and stored |
| Actions.ActionManager.RegisterAction | managers/action_manager.py:403-420 | a known id is refused; otherwise the definition is stored under the id |
| Actions.ActionManager.SetActionCallback | managers/action_manager.py:296-315 | a known id's definition is marked as having a callback |
| Actions.ActionManager.UpdateActionStates | managers/action_manager.py:352-358 | every created action takes the state its definition calls for |
| Actions.ActionManager.UpdateContext | managers/action_manager.py:337-350 | the flags are merged in; every created action keeps its place, id, text and tooltip, and only its enabled state changes, to what its definition calls for in the new context |
| Actions.ActionManager.CreateAllActions | managers/action_manager.py:378-389 | every definition has an action afterwards, and existing ones are kept |
| FrameExporter.LayoutCheck | export/core/frame_exporter.py:35-77 | rejects an unknown mode, out-of-range spacing or padding, out-of-range counts, custom mode without both counts, and a bad RGBA colour; None exactly when none applies |
| FrameExporter.DefaultLayoutValid | export/core/frame_exporter.py:22-34 | the default layout passes its own checks |
| FrameExporter.EffectiveColumns | export/core/frame_exporter.py:79-85 | the custom columns, the column cap in rows mode, or none |
| FrameExporter.EffectiveRows | export/core/frame_exporter.py:87-93 | the custom rows, the row cap in columns mode, or none |
| FrameExporter.CeilSqrt | export/core/frame_exporter.py:353-356 | the least c with c*c >= n |
| FrameExporter.SquareGrid | export/core/frame_exporter.py:353-356 | `ceil(sqrt n)` columns and enough rows to hold n |
| FrameExporter.LongestSegment | export/core/frame_exporter.py:539-546 | the largest `end - start + 1` over the segments |
| FrameExporter.InitialGrid | export/core/frame_exporter.py:332-364 | the grid each mode starts from: the custom counts as given; in segments-per-row mode one row per segment and the longest segment's length as columns; each start grid has at least one row and one column |
| FrameExporter.Grow | export/core/frame_exporter.py:366-371 | the grown grid holds n and never shrinks; a grid already large enough is kept, and a grown one would be too small without its last column or its last row |
| FrameExporter.CalculateGridLayout | export/core/frame_exporter.py:332-373 | the loop's grid is Grow of the mode's grid, so it has at least n cells |
| FrameExporter.CappedModesNeedNoGrowth | export/core/frame_exporter.py:341-371 | in rows, columns and square mode the starting grid already holds every frame |
| FrameExporter.CustomGridKeptIffLargeEnough | export/core/frame_exporter.py:334-371 | a custom grid is kept exactly when it holds every frame |
| FrameExporter.LargestCell | export/core/frame_exporter.py:275-283 | the largest frame width and height: a cell every frame fits, and the smallest, since some frame has that width and some that height |
| FrameExporter.PlacementsFitAndDoNotOverlap | export/core/frame_exporter.py:492-524 | on a grid with a cell per frame, when every frame, drawn at its own size from its cell's corner, fits the cell, every frame is inside the sheet and no two overlap |
| FrameExporter.OneRowColumnsGrid | export/core/frame_exporter.py:332-371 | columns mode with at most one row is a valid layout, and two frames get a grid of two columns and one row |
| FrameExporter.FirstFrameCellOverflows | export/core/frame_exporter.py:275-330 | with cells of the first frame's size and no padding, a 10×10 frame then a 20×20 one on a two-by-one grid give a sheet 10 high, and the second frame, drawn at its own size, runs past the sheet's right and bottom edges, whatever the spacing |
| FrameExporter.ExportedSheetHoldsEveryFrame | export/core/frame_exporter.py:263-330 | with cells of the largest frame's size, each frame lands inside the sheet, with no two overlapping, whatever the mode's grid |
| FrameExporter.EstimatedDimensions | export/core/frame_exporter.py:95-118 | None exactly when there are no frames and the mode is not custom |
| FrameExporter.WiderGridIsWider | export/core/frame_exporter.py:417-426 | a grid with more columns gives a sheet at least as wide |
| FrameExporter.EstimateMatchesExport | export/core/frame_exporter.py:95-118 | the estimate is the exported sheet's size in rows, columns and square mode; in custom mode exactly when the custom grid holds every frame |
| FrameExporter.DrawSpritesWithLayout | export/core/frame_exporter.py:492-524 | frame i is drawn at its own size at `(padding + (i % cols)*(fw + sp), padding + (i // cols)*(fh + sp))`, fw and fh being the cell size passed in |
| FrameExporter.SegmentsSheetDimensions | export/core/frame_exporter.py:428-453 | the longest segment wide and one row per segment; one padded frame with no segments |
| FrameExporter.DrawnInRow | export/core/frame_exporter.py:569-573 | how many of a segment's frames exist among the exported frames: the drawn ones exist, and the first one skipped does not |
| FrameExporter.DrawSpritesSegmentsPerRow | export/core/frame_exporter.py:551-598 | the draws are exactly SegmentDraws: each segment on its own row, frames past the end skipped, each frame at its own size |
| FrameExporter.DrawSegmentRow | export/core/frame_exporter.py:570-596 | one segment's row: its frames left to right, each at its own size from the corner of a cell of the size passed in, stopping at the last exported frame |
| FrameExporter.SegmentDrawsInsideSheet | export/core/frame_exporter.py:551-598 | when every frame fits the cell, every draw is of an existing frame and lands inside the sheet sized for the segments |
| FrameExporter.MakeExportTask | export/core/frame_exporter.py:147-193 | an error exactly when there are no frames or the scale is not positive, no frames being reported first; otherwise the defaults fill what is missing |
| FrameExporter.ScaledSize | export/core/frame_exporter.py:278-283 | `int(size * scale)` on the exact product: the floor of the scaled size, the size itself at scale 1, never more than the size at scale 1 or below |
| SpritePreview.PreviewGrid | export/widgets/sprite_preview_widget.py:154-180 | (1, 1) with no layout or no sprites; custom counts as given; otherwise a grid with at least n cells |
| SpritePreview.PreviewMatchesExport | export/widgets/sprite_preview_widget.py:154-180 | the preview's grid is the export's grid in rows, columns and square mode; in custom mode exactly when the custom grid holds every sprite |
| Validation.ValidateFilename | ui/validation_widgets.py:418-446 | blank is NEUTRAL; a forbidden character, a reserved name in any case, or more than 200 characters is an ERROR; leading or trailing white space is a WARNING; anything else is VALID, each state with an if-and-only-if |
| Validation.ReservedInAnyCase | ui/validation_widgets.py:429-436 | each reserved device name is an ERROR whatever its letter case |
| Validation.StrippedNeverWarns | ui/validation_widgets.py:63-70 | a stripped filename is never given the white-space WARNING |
| Validation.ValidatedLineEdit.constructor | ui/validation_widgets.py:35-44 | empty text, NEUTRAL state |
| Validation.ValidatedLineEdit.SetValidationState | ui/validation_widgets.py:72-83 | the state and its message, shown as the tool tip |
| Validation.ValidatedLineEdit.OnTextChanged | ui/validation_widgets.py:54-61 | the text is stored and the state drops back to NEUTRAL |
| Validation.ValidatedLineEdit.ValidateInput | ui/validation_widgets.py:63-70 | the stripped text is validated, so a filename edit never warns, and the edit is valid exactly when the state is not ERROR |
| Validation.DirectoryAcceptsMore | ui/validation_widgets.py:387-391 | the directory selector accepts every state a line edit accepts, WARNING besides, and never ERROR |
| Selection.Range | export/widgets/selection_widgets.py:157-158 | `list(range(a, b))`: the b - a integers from a upward, none when b < a |
| Selection.ScopeNamed | export/widgets/selection_widgets.py:179-191 | the scope with that name, or None for any other name |
| Selection.ScopeNameRoundTrip | export/widgets/selection_widgets.py:169-191 | every scope survives the round trip through its name |
| Selection.FrameSelectionWidget.constructor | export/widgets/selection_widgets.py:26-31 | all frames checked; one unselected item per frame |
| Selection.FrameSelectionWidget.SelectedCount | export/widgets/selection_widgets.py:147-151 | the number of selected items, at most the frame count |
| Selection.FrameSelectionWidget.InvertSelection | export/widgets/selection_widgets.py:140-145 | every item's selection flips |
| Selection.FrameSelectionWidget.SelectAllFrames | export/widgets/selection_widgets.py:130-133 | every item is selected |
| Selection.FrameSelectionWidget.ClearSelection | export/widgets/selection_widgets.py:135-138 | no item is selected |
| Selection.FrameSelectionWidget.OnScopeChanged | export/widgets/selection_widgets.py:114-128 | the scope changes; choosing selected frames with nothing selected selects every frame |
| Selection.FrameSelectionWidget.SetFrameScope | export/widgets/selection_widgets.py:179-191 | a known name sets its scope, and "Selected frames" with nothing selected selects every frame while any other known scope keeps the selection; an unknown name changes nothing |
| Selection.FrameSelectionWidget.UpdateFrameCount | export/widgets/selection_widgets.py:193-208 | the list is rebuilt for the new count with nothing selected |
| Selection.FrameSelectionWidget.GetSelectedIndices | export/widgets/selection_widgets.py:153-167 | every frame for "all"; the selected frames in ascending order for "selected"; the current frame alone for "current" |
| Selection.SelectedPositions | export/widgets/selection_widgets.py:160-167 | the selected positions, ascending, one per selected item, and no others |
| Selection.CountTrue | export/widgets/selection_widgets.py:147-151 | the number of selected items lies between 0 and the list length |
| Selection.Clamp | export/widgets/selection_widgets.py:235-245 | the value a spin box with range [1, n] keeps: inside the range, and the value itself when it already is |
| Selection.FrameSelectionCompact.constructor | export/widgets/selection_widgets.py:217-256 | unchecked, from the first frame to the last |
| Selection.FrameSelectionCompact.OnRangeToggled | export/widgets/selection_widgets.py:263-268 | stores whether the range is checked |
| Selection.FrameSelectionCompact.SetStart | export/widgets/selection_widgets.py:270-277 | the start takes the clamped value and the end is pulled up to it |
| Selection.FrameSelectionCompact.SetEnd | export/widgets/selection_widgets.py:270-277 | the end takes the clamped value, put back up to the start if it went below |
| Selection.FrameSelectionCompact.OnRangeChanged | export/widgets/selection_widgets.py:270-277 | a reversed range is closed by raising its end, so the end is never below the start |
| Selection.FrameSelectionCompact.UpdateFrameCount | export/widgets/selection_widgets.py:297-308 | both spins take the new range and the end moves to the last frame |
| Selection.FrameSelectionCompact.GetSelectedIndices | export/widgets/selection_widgets.py:289-295 | `[start-1, end)` when checked, None otherwise |
| Selection.PathJoin | export/widgets/selection_widgets.py:490-493 | POSIX `os.path.join`: an absolute second part replaces the first; otherwise the parts are joined with one separator |
| Selection.ConfigFor | export/widgets/selection_widgets.py:480-505 | a segment's config covers its frames start..end, puts it in its own folder when asked, and adds its name to the base name when asked |
| Selection.PrepareSegmentExportSettings | export/widgets/selection_widgets.py:459-507 | one config per selected name that names a segment, in order, with both options defaulting to true |
| Selection.SegmentConfigsSound | export/widgets/selection_widgets.py:480-505 | every config is for a selected, known segment and covers exactly that segment's frames; every selected, known segment gets a config; no more configs than selected names |
| Selection.CalculateTotalFramesForSegments | export/widgets/selection_widgets.py:510-522 | the sum of `end - start + 1` over the selected known segments |
| Selection.TotalMatchesConfigs | export/widgets/selection_widgets.py:509-522 | for segments whose end is not before their start, the total is the number of frame indices the configs list |

## Left out

- Qt widgets are not modelled: construction, styling, painting, dialogs and signal wiring. Signals that matter become method calls, and dialog results become parameters.
- File and image I/O are not modelled: loading sheets, the JSON files (the load loop is modelled on already-parsed entries), saving frames and the atomic write. `detect_background_color` is also left out.
- Concurrency is not modelled: the export worker thread, its cancellation and progress. QTimer scheduling is a method call per tick.
- Floating-point heuristics are not modelled:
  - `_calculate_auto_layout` is a parameter of the export grid choice;
  - frame-candidate scores and the `comprehensive_auto_detect` confidence averaging are left out;
  - `get_actual_fps` and `get_timing_precision` are left out.
- FrameExporter.CeilSqrt: `math.ceil(math.sqrt(n))` is taken as the exact integer ceiling square root. A float square root can differ only for very large n.
- `scipy.ndimage.label` is a foreign library and is not modelled. CCL detection is a parameter of `extract_ccl_frames`, and its raising is modelled.
- SpriteCcl.CclOperations.ExtractCclFrames: `detect_background_color` raising is not modelled. In the source it raises after the boxes are stored and `ccl_available` is set, and the call then reports a failure (sprite_model/sprite_ccl.py:86-101). In the model the background lookup is part of the detection result and cannot raise.
- `_analyze_ccl_results` and `detect_sprites_ccl_enhanced` are not modelled. `group_positions`, which is nested in the first, is modelled.
- SpriteCcl.CclOperations.ExtractCclFrames: a copied frame is never null, and the info text is not modelled. The conversion of a QPixmap to ARGB32 is taken as given.
- SpriteDetection.RectangularCandidates: only the candidate filter is modelled, not the scoring that picks among candidates.
- `detect_content_based`, `detect_spacing` and `comprehensive_auto_detect` are not modelled, because they rely on float scores.
- Strings.Upper: upper-cases ASCII letters only. The reserved names compared against are ASCII.
- Strings.ParseInt: reads optional white space, an optional sign and ASCII digits. Python's `int()` also accepts underscores between digits and non-ASCII decimal digits. The model reads only keys that `str(int)` wrote, and those contain neither.
- FrameExporter.ScaledSize: multiplies exactly, in real numbers, and so does not model the rounding of the float product. Python computes `int(100 * 2.3)` as 229, because 100 * 2.3 is 229.99999999999997 as a double; the model gives 230. IEEE double arithmetic is not modelled.
- Shortcuts: the sharing of definition objects is left out. `SHORTCUT_DEFINITIONS` is a class-level dict, and its definition objects are loaded by reference. `set_shortcut_callback` therefore changes them for every manager instance. The model gives each manager its own values.
- ExportFormat, `export_frames` and the individual-frames export are not modelled, because they amount to file naming and I/O.
- Actions: `get_action`, `get_actions_by_category`, `get_action_definition` and `get_all_action_ids` are not modelled; they are plain look-ups.
- Actions: the calls into the shortcut manager are left out (`set_shortcut_action`, `set_shortcut_callback`).
- Actions: the sharing of definition objects is left out. `set_action_callback` mutates the class-level definition; `register_action` keeps the caller's object.
- Actions: context values are booleans here; Python tests any value for truth.
- Shortcuts: `set_shortcut_action`, `get_shortcuts_by_category`, `get_all_categories`, `generate_help_html` and the module-level singleton are not modelled.
- Shortcuts: a callback that raises counts as not handled, which the model passes in as the callback's outcome.
- SegmentManager.JsonRoundTrip: the colour is one value in the model. In the source, JSON turns the `color_rgb` tuple into a list, so the reloaded dataclass is not `==` to the saved one, although every field holds the same numbers.
- SegmentManager.AnimationSegmentManager.SetSpriteContext: the load of the saved segment file for the new sheet is not modelled.
- The segment manager's `save_segments_to_file`, `export_segments_list`, auto-save and signals are not modelled; they are I/O.
- SegmentPreview.SegmentPreviewItem.EditFrameHold: editing does not reset the hold counter, as in the source. The source also does not reset it when a hold is added.
- The container bookkeeping of `AnimationSegmentPreview` is not modelled: `add_segment`, `remove_segment`, `update_segment`, and toggling or stopping all players.
- SegmentPreview.PreviewZoom: zoom is kept in whole percent. The source's float steps of 0.25 are exact in binary.
- Validation: the directory validator and `create_directory_if_needed` touch the file system and are not modelled. The pattern edit is also not modelled.
- Selection.FrameSelectionWidget.GetSelectedIndices: the source's final `return []` cannot be reached, because the scope group always has one of its three buttons checked.
- `SegmentExportWidget` is Qt list bookkeeping and is not modelled.
- Divisions by zero that Python would raise are modelled in two ways. For `calculate_estimated_dimensions` with no frames they give None. Elsewhere a `requires` excludes them where the source's callers never pass such values: a positive frame size to the grid layout, at least one column for placement.
- Integers are unbounded. The 32-bit ARGB pixel values are kept below 2^32 by their type bound. The model follows Python's unbounded ints everywhere else.

## Findings

| source | as written | input that shows it | evidently intended | confidence | as-written member | corrected member |
|---|---|---|---|---|---|---|
| managers/animation_segment_manager.py:212-268 | `update_segment` writes the new start, end and name into the stored segment, then validates and returns an error without undoing the writes | any stored valid segment updated with `start_frame=-1`, or renamed with `rename_segment(name, "  ")` | a rejected update, rename included, leaves the segment as it was | not executed | SegmentManager.AnimationSegmentManager.UpdateSegmentAsWritten, SegmentManager.FailedUpdateCorrupts, SegmentManager.AnimationSegmentManager.RenameSegmentAsWritten, SegmentManager.BlankRenameCorrupts | SegmentManager.AnimationSegmentManager.UpdateSegment, SegmentManager.AnimationSegmentManager.RenameSegment |
| ui/animation_grid_view.py:464-483 | a drag started on an unselected frame calls `_clear_selection`, which resets the drag state that was just set | with frames {2, 5} selected, Ctrl-press frame 2 (the press toggles it off, lines 434-437) and drag from it | the drag selects the frame and stays in progress | not executed | GridView.AnimationGridView.OnDragStartedAsWritten, GridView.AnimationGridView.CtrlPressThenDragAsWritten | GridView.AnimationGridView.OnDragStarted, GridView.AnimationGridView.CtrlPressThenDrag |
| sprite_model/sprite_ccl.py:209-235 | switching to ccl sets the mode and returns the failure without restoring the old mode, unlike the grid branch | mode grid, CCL available, no stored boxes, empty sheet path, `set_extraction_mode("ccl")` | a failed switch restores the previous mode, as `tests/unit/test_ccl_mode_switching.py:168-183` expects | not executed | SpriteCcl.CclOperations.SetExtractionModeAsWritten | SpriteCcl.CclOperations.SetExtractionMode |
| managers/shortcut_manager.py:154-163 | re-registering an id under a new key adds the new key mapping but keeps the old one | re-register `file_open` as `Ctrl+Shift+O`, unregister it, then press `Ctrl+O`: the key maps to a removed id and the lookup raises KeyError | re-registration drops the id's old key | not executed | Shortcuts.RegisterAsWritten, Shortcuts.ReregisterLeavesStaleKey, Shortcuts.ShortcutManager.RegisterShortcutAsWritten | Shortcuts.Register, Shortcuts.ReregisterDropsOldKey, Shortcuts.ShortcutManager.RegisterShortcut |
| export/core/frame_exporter.py:275-283 | `_export_sprite_sheet` sizes every cell, and the sheet, by the first frame, while `drawPixmap` draws each frame at its own size | frames of 10×10 and 20×20 in columns mode with at most one row: the sheet is 20×10 and the second frame is drawn at (10, 0) as 20×20, past the right and bottom edges | cells large enough for every frame, so no frame leaves the sheet or overlaps another | not executed | FrameExporter.OneRowColumnsGrid, FrameExporter.FirstFrameCellOverflows | FrameExporter.LargestCell, FrameExporter.ExportedSheetHoldsEveryFrame |
