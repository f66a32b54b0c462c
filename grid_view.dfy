// The frame-selection logic of ui/animation_grid_view.py: a set of selected
// frame indices changed by clicks, shift-ranges and drags, the grid's column
// count, and the view's own name -> segment table.
module GridView {
  import opened Wrappers
  import opened Strings
  import opened PyDict

  /** `AnimationSegment` without its display colour. */
  datatype AnimationSegment = AnimationSegment(name: string, startFrame: int, endFrame: int)

  /** The `frame_count` property. */
  function FrameCount(s: AnimationSegment): int
  {
    s.endFrame - s.startFrame + 1
  }

  /** The integers lo..hi inclusive (empty when hi < lo). */
  function RangeSet(lo: int, hi: int): (r: set<int>)
    ensures forall i :: i in r <==> lo <= i <= hi
    decreases hi - lo
  {
    if hi < lo then {} else RangeSet(lo, hi - 1) + {hi}
  }

  /** A segment's `frame_count` is the number of frames in its range. */
  lemma {:induction false} FrameCountIsRangeSize(s: AnimationSegment)
    requires s.startFrame <= s.endFrame + 1
    ensures |RangeSet(s.startFrame, s.endFrame)| == FrameCount(s)
    decreases s.endFrame - s.startFrame
  {
    if s.startFrame <= s.endFrame {
      var shorter := s.(endFrame := s.endFrame - 1);
      FrameCountIsRangeSize(shorter);
      assert RangeSet(s.startFrame, s.endFrame) == RangeSet(shorter.startFrame, shorter.endFrame) + {s.endFrame};
    }
  }

  function Min(a: int, b: int): int { if a <= b then a else b }
  function Max(a: int, b: int): int { if a <= b then b else a }

  /**
   * The frames a range selection adds: `range(min, max + 1)` filtered by
   * `i < len(thumbnails)`. The code checks only the upper end.
   */
  function RangeSelection(a: int, b: int, frameCount: int): (r: set<int>)
    ensures forall i :: i in r <==> Min(a, b) <= i <= Max(a, b) && i < frameCount
  {
    RangeSet(Min(a, b), Min(Max(a, b), frameCount - 1))
  }

  /** For clicked (non-negative) frames the range is [min, max] intersected with the frames shown. */
  lemma RangeSelectionInside(a: int, b: int, frameCount: int)
    requires a >= 0 && b >= 0
    ensures forall i :: i in RangeSelection(a, b, frameCount) ==> 0 <= i < frameCount
    ensures forall i :: Min(a, b) <= i <= Max(a, b) && 0 <= i < frameCount ==> i in RangeSelection(a, b, frameCount)
  {
  }

  /** `_toggle_frame_selection` on a set. */
  function Toggled(s: set<int>, f: int): (r: set<int>)
    ensures f in r <==> f !in s
    ensures forall g :: g != f ==> (g in r <==> g in s)
  {
    if f in s then s - {f} else s + {f}
  }

  /** Toggling twice restores the selection. */
  lemma ToggleTwice(s: set<int>, f: int)
    ensures Toggled(Toggled(s, f), f) == s
  {
    assert forall g :: g in Toggled(Toggled(s, f), f) <==> g in s;
  }

  /** `_is_contiguous_selection` as a predicate: non-empty, each element one more than the last. */
  predicate Contiguous(frames: seq<int>)
  {
    |frames| > 0 && forall i :: 1 <= i < |frames| ==> frames[i] == frames[i - 1] + 1
  }

  /** A contiguous list is exactly first, first+1, ..., first+len-1. */
  lemma {:induction false} ContiguousIsRange(frames: seq<int>)
    requires Contiguous(frames)
    ensures forall i :: 0 <= i < |frames| ==> frames[i] == frames[0] + i
  {
    var k := 1;
    while k < |frames|
      invariant 1 <= k <= |frames|
      invariant forall i :: 0 <= i < k ==> frames[i] == frames[0] + i
    {
      assert frames[k] == frames[k - 1] + 1;
      k := k + 1;
    }
  }

  /** And conversely every run first, first+1, ... is contiguous. */
  lemma RangeIsContiguous(frames: seq<int>)
    requires |frames| > 0 && forall i :: 0 <= i < |frames| ==> frames[i] == frames[0] + i
    ensures Contiguous(frames)
  {
  }

  /** `_is_contiguous_selection`. */
  method IsContiguousSelection(sortedFrames: seq<int>) returns (r: bool)
    ensures r <==> Contiguous(sortedFrames)
  {
    if |sortedFrames| == 0 {
      return false;
    }
    var i := 1;
    while i < |sortedFrames|
      invariant 1 <= i <= |sortedFrames|
      invariant forall j :: 1 <= j < i ==> sortedFrames[j] == sortedFrames[j - 1] + 1
    {
      if sortedFrames[i] != sortedFrames[i - 1] + 1 {
        return false;
      }
      i := i + 1;
    }
    return true;
  }

  /** The k-th candidate of `_generate_unique_segment_name`: `f"{base_name}_{index}"`. */
  function Candidate(base: string, k: int): string
  {
    base + "_" + IntToString(k)
  }

  /** Every candidate before the k-th is taken. */
  ghost predicate TakenBelow<V>(table: Dict<string, V>, base: string, k: int)
  {
    forall j :: 1 <= j < k ==> Contains(table, Candidate(base, j))
  }

  lemma TakenBelowStep<V>(table: Dict<string, V>, base: string, k: int)
    requires TakenBelow(table, base, k) && Contains(table, Candidate(base, k))
    ensures TakenBelow(table, base, k + 1)
  {
  }

  /** name is the first free candidate among the first 1000. */
  ghost predicate FirstFree<V>(table: Dict<string, V>, base: string, name: string)
  {
    exists k :: 1 <= k <= 1000 && name == Candidate(base, k) && !Contains(table, name) && TakenBelow(table, base, k)
  }

  /** Different indices give different candidates. */
  lemma CandidatesDistinct(base: string, j: int, k: int)
    requires j != k
    ensures Candidate(base, j) != Candidate(base, k)
  {
    if Candidate(base, j) == Candidate(base, k) {
      var pre := base + "_";
      assert Candidate(base, j)[|pre|..] == IntToString(j);
      assert Candidate(base, k)[|pre|..] == IntToString(k);
      IntToStringInjective(j, k);
    }
  }

  class AnimationGridView {
    /** `len(self._thumbnails)`: one thumbnail per frame. */
    var frameCount: nat
    var segments: Dict<string, AnimationSegment>
    var selectedFrames: set<int>
    var lastClickedFrame: Option<int>
    var dragStartFrame: Option<int>
    var isDragging: bool
    /** `_pre_drag_selection`, None while the attribute does not exist. */
    var preDragSelection: Option<set<int>>
    var gridColumns: int

    /**
     * The column count stays in [1, 20], a drag is in progress exactly when
     * it has a start frame, and the segment table is a dict.
     */
    ghost predicate Valid()
      reads this
    {
      1 <= gridColumns <= 20 && (isDragging <==> dragStartFrame.Some?) && DistinctKeys(segments)
    }

    constructor()
      ensures Valid()
      ensures frameCount == 0 && segments == [] && selectedFrames == {} && gridColumns == 8
      ensures lastClickedFrame.None? && !isDragging && preDragSelection.None?
    {
      frameCount := 0;
      segments := [];
      selectedFrames := {};
      lastClickedFrame := None;
      dragStartFrame := None;
      isDragging := false;
      preDragSelection := None;
      gridColumns := 8;
    }

    /** `set_frames`: the thumbnails are rebuilt; the selection is kept. */
    method SetFrames(count: nat)
      requires Valid()
      modifies this
      ensures Valid()
      ensures frameCount == count
      ensures selectedFrames == old(selectedFrames) && segments == old(segments) && gridColumns == old(gridColumns)
      ensures isDragging == old(isDragging) && dragStartFrame == old(dragStartFrame)
    {
      frameCount := count;
    }

    /** `_adjust_columns`: the new count is clamped into [1, 20]. */
    method AdjustColumns(delta: int)
      requires Valid()
      modifies this
      ensures Valid()
      ensures gridColumns == Max(1, Min(20, old(gridColumns) + delta))
      ensures delta >= 0 ==> gridColumns >= old(gridColumns)
      ensures delta <= 0 ==> gridColumns <= old(gridColumns)
      ensures selectedFrames == old(selectedFrames) && segments == old(segments) && frameCount == old(frameCount)
      ensures isDragging == old(isDragging) && dragStartFrame == old(dragStartFrame)
    {
      var newColumns := Max(1, Min(20, gridColumns + delta));
      if newColumns != gridColumns {
        gridColumns := newColumns;
      }
    }

    /** `_toggle_frame_selection`. */
    method ToggleFrameSelection(frameIndex: int)
      modifies this
      ensures selectedFrames == Toggled(old(selectedFrames), frameIndex)
      ensures unchanged(this`segments, this`gridColumns, this`frameCount, this`isDragging, this`dragStartFrame)
      ensures unchanged(this`lastClickedFrame, this`preDragSelection)
    {
      if frameIndex in selectedFrames {
        selectedFrames := selectedFrames - {frameIndex};
      } else {
        selectedFrames := selectedFrames + {frameIndex};
      }
    }

    /** `_select_frame_range`: adds the range to the selection, keeping what was selected. */
    method SelectFrameRange(startFrame: int, endFrame: int)
      modifies this
      ensures selectedFrames == old(selectedFrames) + RangeSelection(startFrame, endFrame, frameCount)
      ensures unchanged(this`segments, this`gridColumns, this`frameCount, this`isDragging, this`dragStartFrame)
      ensures unchanged(this`lastClickedFrame, this`preDragSelection)
    {
      var start := Min(startFrame, endFrame);
      var end := Max(startFrame, endFrame);
      var i := start;
      while i < end + 1
        invariant start <= i <= end + 1
        invariant selectedFrames == old(selectedFrames) + RangeSet(start, Min(i - 1, frameCount - 1))
        invariant unchanged(this`segments, this`gridColumns, this`frameCount, this`isDragging, this`dragStartFrame)
        invariant unchanged(this`lastClickedFrame, this`preDragSelection)
      {
        if i < frameCount {
          selectedFrames := selectedFrames + {i};
        }
        assert RangeSet(start, Min(i, frameCount - 1)) ==
          RangeSet(start, Min(i - 1, frameCount - 1)) + (if i < frameCount then {i} else {});
        i := i + 1;
      }
    }

    /** `_clear_selection`: no selection, no last click, no drag, no pre-drag selection. */
    method ClearSelection()
      requires Valid()
      modifies this
      ensures Valid()
      ensures selectedFrames == {} && lastClickedFrame.None? && dragStartFrame.None? && !isDragging
      ensures preDragSelection.None?
      ensures segments == old(segments) && gridColumns == old(gridColumns) && frameCount == old(frameCount)
    {
      selectedFrames := {};
      lastClickedFrame := None;
      dragStartFrame := None;
      isDragging := false;
      preDragSelection := None;
    }

    /**
     * `_on_frame_clicked`: Ctrl or Alt toggles the frame, Shift with a
     * previous click adds the range from it, any other click selects the
     * frame alone; the frame becomes the last clicked one.
     */
    method OnFrameClicked(frameIndex: int, ctrlOrAlt: bool, shift: bool)
      requires Valid()
      modifies this
      ensures Valid()
      ensures lastClickedFrame == Some(frameIndex)
      ensures ctrlOrAlt ==> selectedFrames == Toggled(old(selectedFrames), frameIndex)
      ensures !ctrlOrAlt && shift && old(lastClickedFrame).Some? ==>
        selectedFrames == old(selectedFrames) + RangeSelection(old(lastClickedFrame).value, frameIndex, frameCount)
      ensures !ctrlOrAlt && !(shift && old(lastClickedFrame).Some?) ==>
        selectedFrames == {frameIndex} && !isDragging && preDragSelection.None?
      ensures segments == old(segments) && gridColumns == old(gridColumns) && frameCount == old(frameCount)
    {
      if ctrlOrAlt {
        ToggleFrameSelection(frameIndex);
      } else if shift && lastClickedFrame.Some? {
        SelectFrameRange(lastClickedFrame.value, frameIndex);
      } else {
        ClearSelection();
        selectedFrames := selectedFrames + {frameIndex};
      }
      lastClickedFrame := Some(frameIndex);
    }

    /**
     * `_on_drag_started` as written. Starting on an unselected frame calls
     * `_clear_selection`, which also resets the drag state just set, so the
     * view leaves this call not dragging.
     */
    method OnDragStartedAsWritten(frameIndex: int)
      requires Valid()
      modifies this
      ensures Valid()
      ensures frameIndex in old(selectedFrames) ==>
        isDragging && dragStartFrame == Some(frameIndex) &&
        selectedFrames == old(selectedFrames) && preDragSelection == Some(old(selectedFrames))
      ensures frameIndex !in old(selectedFrames) ==>
        !isDragging && dragStartFrame.None? &&
        selectedFrames == {frameIndex} && preDragSelection == Some({frameIndex})
      ensures segments == old(segments) && frameCount == old(frameCount)
    {
      dragStartFrame := Some(frameIndex);
      isDragging := true;
      preDragSelection := Some(selectedFrames);
      if frameIndex !in selectedFrames {
        ClearSelection();
        selectedFrames := selectedFrames + {frameIndex};
        preDragSelection := Some(selectedFrames);
      }
    }

    /**
     * `_on_drag_started` as evidently intended: a drag from an unselected
     * frame first selects that frame alone, and the drag stays in progress
     * either way.
     */
    method OnDragStarted(frameIndex: int)
      requires Valid()
      modifies this
      ensures Valid()
      ensures isDragging && dragStartFrame == Some(frameIndex)
      ensures frameIndex in old(selectedFrames) ==>
        selectedFrames == old(selectedFrames) && preDragSelection == Some(old(selectedFrames))
      ensures frameIndex !in old(selectedFrames) ==>
        selectedFrames == {frameIndex} && preDragSelection == Some({frameIndex})
      ensures segments == old(segments) && frameCount == old(frameCount)
    {
      if frameIndex !in selectedFrames {
        ClearSelection();
        selectedFrames := selectedFrames + {frameIndex};
      }
      dragStartFrame := Some(frameIndex);
      isDragging := true;
      preDragSelection := Some(selectedFrames);
    }

    /** `_update_drag_selection`: the pre-drag selection (or nothing) plus the dragged range. */
    method UpdateDragSelection(startFrame: int, endFrame: int)
      requires Valid()
      modifies this
      ensures Valid()
      ensures selectedFrames ==
        (if old(preDragSelection).Some? then old(preDragSelection).value else {}) +
        RangeSelection(startFrame, endFrame, frameCount)
      ensures isDragging == old(isDragging) && dragStartFrame == old(dragStartFrame)
      ensures preDragSelection == old(preDragSelection) && lastClickedFrame == old(lastClickedFrame)
      ensures segments == old(segments) && frameCount == old(frameCount) && gridColumns == old(gridColumns)
    {
      if preDragSelection.Some? {
        selectedFrames := preDragSelection.value;
      } else {
        selectedFrames := {};
      }
      SelectFrameRange(startFrame, endFrame);
    }

    /** `mouseMoveEvent`: while dragging, a frame under the cursor extends the drag to it. */
    method MouseMove(frameUnderMouse: Option<int>)
      requires Valid()
      modifies this
      ensures Valid()
      ensures !old(isDragging) || frameUnderMouse.None? ==> selectedFrames == old(selectedFrames)
      ensures old(isDragging) && frameUnderMouse.Some? ==>
        selectedFrames ==
          (if old(preDragSelection).Some? then old(preDragSelection).value else {}) +
          RangeSelection(old(dragStartFrame).value, frameUnderMouse.value, frameCount)
      ensures isDragging == old(isDragging) && dragStartFrame == old(dragStartFrame)
      ensures segments == old(segments) && frameCount == old(frameCount)
    {
      if isDragging && dragStartFrame.Some? && frameUnderMouse.Some? {
        UpdateDragSelection(dragStartFrame.value, frameUnderMouse.value);
      }
    }

    /** `mouseReleaseEvent`: a left-button release ends the drag and drops the pre-drag selection. */
    method MouseRelease(leftButton: bool)
      requires Valid()
      modifies this
      ensures Valid()
      ensures leftButton && old(isDragging) ==> !isDragging && dragStartFrame.None? && preDragSelection.None?
      ensures !(leftButton && old(isDragging)) ==> isDragging == old(isDragging) && preDragSelection == old(preDragSelection)
      ensures selectedFrames == old(selectedFrames) && segments == old(segments)
    {
      if leftButton && isDragging {
        isDragging := false;
        dragStartFrame := None;
        preDragSelection := None;
      }
    }

    /**
     * `_generate_unique_segment_name`: the first of `base_1` ... `base_1000`
     * not in the table; when all are taken, `base_<millis % 100000>` from
     * the clock reading passed in.
     */
    method GenerateUniqueSegmentName(base: string, millis: int) returns (name: string)
      ensures FirstFree(segments, base, name) ||
              (TakenBelow(segments, base, 1001) && name == Candidate(base, millis % 100000))
    {
      var index := 1;
      while true
        invariant 1 <= index <= 1000
        invariant TakenBelow(segments, base, index)
        decreases 1000 - index
      {
        var candidate := Candidate(base, index);
        if !Contains(segments, candidate) {
          assert FirstFree(segments, base, candidate) by {
            assert 1 <= index <= 1000 && candidate == Candidate(base, index);
          }
          return candidate;
        }
        TakenBelowStep(segments, base, index);
        index := index + 1;
        if index > 1000 {
          return Candidate(base, millis % 100000);
        }
      }
    }

    /** `add_segment`: files the segment under its name, replacing one of the same name. */
    method AddSegment(segment: AnimationSegment)
      requires Valid()
      modifies this
      ensures Valid()
      ensures segments == Put(old(segments), segment.name, segment)
      ensures Get(segments, segment.name) == Some(segment)
      ensures forall k :: k != segment.name ==> Get(segments, k) == Get(old(segments), k)
      ensures selectedFrames == old(selectedFrames)
    {
      PutSpec(segments, segment.name, segment);
      segments := Put(segments, segment.name, segment);
    }

    /** `_delete_segment`: removes the entry when present. */
    method DeleteSegment(name: string)
      requires Valid()
      modifies this
      ensures Valid()
      ensures !Contains(segments, name)
      ensures forall k :: k != name ==> Get(segments, k) == Get(old(segments), k)
      ensures !old(Contains(segments, name)) ==> segments == old(segments)
    {
      if Contains(segments, name) {
        RemoveSpec(segments, name);
        segments := Remove(segments, name);
      }
    }

    /**
     * `_rename_segment`: only when the old name is present and the new one
     * absent; the segment, renamed, moves to the end under the new name.
     */
    method RenameSegment(oldName: string, newName: string) returns (renamed: bool)
      requires Valid()
      modifies this
      ensures Valid()
      ensures renamed <==> old(Contains(segments, oldName)) && !old(Contains(segments, newName))
      ensures !renamed ==> segments == old(segments)
      ensures renamed ==>
        segments == Remove(old(segments), oldName) + [(newName, Get(old(segments), oldName).value.(name := newName))]
      ensures renamed ==>
        !Contains(segments, oldName) &&
        Get(segments, newName) == Some(Get(old(segments), oldName).value.(name := newName))
      ensures renamed ==> forall k :: k != oldName && k != newName ==> Get(segments, k) == Get(old(segments), k)
    {
      if Contains(segments, oldName) && !Contains(segments, newName) {
        var segment := Get(segments, oldName).value;
        ghost var before := segments;
        RemoveSpec(segments, oldName);
        segments := Remove(segments, oldName);
        assert !Contains(segments, newName) by {
          assert Get(segments, newName) == Get(before, newName);
        }
        PutSpec(segments, newName, segment.(name := newName));
        segments := Put(segments, newName, segment.(name := newName));
        return true;
      }
      return false;
    }

    /**
     * A Ctrl- or Alt-press on a selected frame deselects it, so the drag
     * its thumbnail then reports starts from an unselected frame: as
     * written, the view ends up not dragging, with only that frame selected.
     */
    method CtrlPressThenDragAsWritten(frameIndex: int)
      requires Valid() && frameIndex in selectedFrames
      modifies this
      ensures Valid()
      ensures !isDragging && dragStartFrame.None? && selectedFrames == {frameIndex}
    {
      OnFrameClicked(frameIndex, true, false);
      assert frameIndex !in selectedFrames;
      OnDragStartedAsWritten(frameIndex);
    }

    /** The same press and drag with the corrected handler: the drag is in progress from that frame. */
    method CtrlPressThenDrag(frameIndex: int)
      requires Valid() && frameIndex in selectedFrames
      modifies this
      ensures Valid()
      ensures isDragging && dragStartFrame == Some(frameIndex) && selectedFrames == {frameIndex}
    {
      OnFrameClicked(frameIndex, true, false);
      assert frameIndex !in selectedFrames;
      OnDragStarted(frameIndex);
    }

    /** `clear_segments`. */
    method ClearSegments()
      requires Valid()
      modifies this
      ensures Valid() && segments == []
      ensures selectedFrames == old(selectedFrames)
    {
      segments := [];
    }
  }

  /** The drag from a selected frame in the view's own check: {1, 3, 8} dragged over 3..5 gives {1, 3, 4, 5, 8}. */
  lemma DragKeepsEarlierSelection()
    ensures {1, 3, 8} + RangeSelection(3, 5, 10) == {1, 3, 4, 5, 8}
  {
    assert RangeSelection(3, 5, 10) == {3, 4, 5};
  }
}
