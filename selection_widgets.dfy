// Which frames an export covers, as export/widgets/selection_widgets.py
// derives it: the frame-scope widget, the compact range selector, and the
// per-segment export handler.
module Selection {
  import opened Wrappers
  import opened PyDict
  import opened SegmentManager

  /** The three radio buttons of the scope group (ids 0, 1 and 2); one is always checked. */
  datatype Scope = AllFrames | SelectedFrames | CurrentFrame

  /** `list(range(a, b))`. */
  function Range(a: int, b: int): (r: seq<int>)
    ensures |r| == if a <= b then b - a else 0
    ensures forall k :: 0 <= k < |r| ==> r[k] == a + k
    decreases b - a
  {
    if a >= b then [] else [a] + Range(a + 1, b)
  }

  /** Strictly ascending, hence sorted without repeats. */
  predicate Ascending(s: seq<int>)
  {
    forall j, k :: 0 <= j < k < |s| ==> s[j] < s[k]
  }

  /** `get_frame_scope`. */
  function ScopeName(s: Scope): string
  {
    match s
    case AllFrames => "all"
    case SelectedFrames => "selected"
    case CurrentFrame => "current"
  }

  /** The scope `set_frame_scope` checks for a name, if it knows the name. */
  function ScopeNamed(name: string): (r: Option<Scope>)
    ensures r.Some? ==> ScopeName(r.value) == name
    ensures r.None? <==> name !in {"all", "selected", "current"}
  {
    if name == "all" then Some(AllFrames)
    else if name == "selected" then Some(SelectedFrames)
    else if name == "current" then Some(CurrentFrame)
    else None
  }

  /** Every scope survives the round trip through its name. */
  lemma ScopeNameRoundTrip(s: Scope)
    ensures ScopeNamed(ScopeName(s)) == Some(s)
  {
  }

  /**
   * `FrameSelectionWidget`: the scope, the frame count, the current frame,
   * and for item `i` of the frame list (whose data is `i`) whether it is
   * selected.
   */
  class FrameSelectionWidget {
    var scope: Scope
    var frameCount: nat
    var currentFrame: int
    var itemSelected: seq<bool>

    ghost predicate Valid()
      reads this
    {
      |itemSelected| == frameCount
    }

    /** "All frames" is checked; one unselected item per frame. */
    constructor(frameCount: nat, currentFrame: int)
      ensures Valid() && scope == AllFrames
      ensures this.frameCount == frameCount && this.currentFrame == currentFrame
      ensures forall i :: 0 <= i < frameCount ==> !itemSelected[i]
    {
      scope := AllFrames;
      this.frameCount := frameCount;
      this.currentFrame := currentFrame;
      itemSelected := seq(frameCount, _ => false);
    }

    /** The number of selected items, shown as "N frames selected". */
    function SelectedCount(): (r: nat)
      requires Valid()
      reads this
      ensures r <= frameCount
    {
      CountTrue(itemSelected)
    }

    /** `_invert_selection`: every item's selection flips. */
    method InvertSelection()
      requires Valid()
      modifies this
      ensures scope == old(scope) && frameCount == old(frameCount) && currentFrame == old(currentFrame)
      ensures Valid()
      ensures forall i :: 0 <= i < frameCount ==> itemSelected[i] == !old(itemSelected)[i]
    {
      var i := 0;
      while i < frameCount
        invariant scope == old(scope) && frameCount == old(frameCount) && currentFrame == old(currentFrame)
        invariant 0 <= i <= frameCount && |itemSelected| == frameCount
        invariant forall j :: 0 <= j < i ==> itemSelected[j] == !old(itemSelected)[j]
        invariant forall j :: i <= j < frameCount ==> itemSelected[j] == old(itemSelected)[j]
      {
        itemSelected := itemSelected[i := !itemSelected[i]];
        i := i + 1;
      }
    }

    /** `_select_all_frames`. */
    method SelectAllFrames()
      requires Valid()
      modifies this
      ensures Valid() && forall i :: 0 <= i < frameCount ==> itemSelected[i]
      ensures scope == old(scope) && frameCount == old(frameCount) && currentFrame == old(currentFrame)
    {
      itemSelected := seq(frameCount, _ => true);
    }

    /** `_clear_selection`. */
    method ClearSelection()
      requires Valid()
      modifies this
      ensures Valid() && forall i :: 0 <= i < frameCount ==> !itemSelected[i]
      ensures scope == old(scope) && frameCount == old(frameCount) && currentFrame == old(currentFrame)
    {
      itemSelected := seq(frameCount, _ => false);
    }

    /**
     * `_on_scope_changed` after the user checks a scope: choosing
     * "Selected frames" with nothing selected selects every frame.
     */
    method OnScopeChanged(newScope: Scope)
      requires Valid()
      modifies this
      ensures Valid() && scope == newScope
      ensures newScope == SelectedFrames && CountTrue(old(itemSelected)) == 0 ==>
        forall i :: 0 <= i < frameCount ==> itemSelected[i]
      ensures !(newScope == SelectedFrames && CountTrue(old(itemSelected)) == 0) ==> itemSelected == old(itemSelected)
      ensures frameCount == old(frameCount) && currentFrame == old(currentFrame)
    {
      scope := newScope;
      if newScope == SelectedFrames && CountTrue(itemSelected) == 0 {
        SelectAllFrames();
      }
    }

    /** `set_frame_scope`: a known scope name is checked and handled; any other is ignored. */
    method SetFrameScope(name: string)
      requires Valid()
      modifies this
      ensures Valid()
      ensures ScopeNamed(name).Some? ==> scope == ScopeNamed(name).value && ScopeName(scope) == name
      ensures ScopeNamed(name) == Some(SelectedFrames) && CountTrue(old(itemSelected)) == 0 ==>
        forall i :: 0 <= i < frameCount ==> itemSelected[i]
      ensures ScopeNamed(name).Some? && !(ScopeNamed(name) == Some(SelectedFrames) && CountTrue(old(itemSelected)) == 0) ==>
        itemSelected == old(itemSelected)
      ensures ScopeNamed(name).None? ==> scope == old(scope) && itemSelected == old(itemSelected)
      ensures frameCount == old(frameCount) && currentFrame == old(currentFrame)
    {
      var s := ScopeNamed(name);
      if s.Some? {
        OnScopeChanged(s.value);
      }
    }

    /** `update_frame_count`: the list is rebuilt with nothing selected. */
    method UpdateFrameCount(frameCount: nat, currentFrame: int)
      modifies this
      ensures Valid() && this.frameCount == frameCount && this.currentFrame == currentFrame
      ensures forall i :: 0 <= i < frameCount ==> !itemSelected[i]
      ensures scope == old(scope)
    {
      this.frameCount := frameCount;
      this.currentFrame := currentFrame;
      itemSelected := seq(frameCount, _ => false);
    }

    /**
     * `get_selected_indices`: every frame; the selected frames in ascending
     * order; or the current frame alone.
     */
    method GetSelectedIndices() returns (r: seq<int>)
      requires Valid()
      ensures scope == AllFrames ==> r == Range(0, frameCount)
      ensures scope == SelectedFrames ==>
        Ascending(r) && |r| == SelectedCount() &&
        forall i :: i in r <==> 0 <= i < frameCount && itemSelected[i]
      ensures scope == CurrentFrame ==> r == [currentFrame]
    {
      match scope
      case AllFrames => r := Range(0, frameCount);
      case CurrentFrame => r := [currentFrame];
      case SelectedFrames => r := SelectedPositions(itemSelected);
    }
  }

  /** r lists, ascending, the positions before i whose flag is set. */
  ghost predicate PositionsUpTo(flags: seq<bool>, r: seq<int>, i: nat)
    requires i <= |flags|
  {
    Ascending(r) && |r| == CountTrue(flags[..i]) &&
    (forall k :: k in r <==> 0 <= k < i && flags[k]) &&
    (forall j :: 0 <= j < |r| ==> r[j] < i)
  }

  /** Looking at position i appends it exactly when its flag is set. */
  lemma PositionsStep(flags: seq<bool>, r: seq<int>, i: nat)
    requires i < |flags| && PositionsUpTo(flags, r, i)
    ensures PositionsUpTo(flags, if flags[i] then r + [i] else r, i + 1)
  {
    assert flags[..i + 1] == flags[..i] + [flags[i]];
    CountTrueAppend(flags[..i], flags[i]);
    if flags[i] {
      AscendingAppend(r, i);
      assert forall k :: k in r + [i] <==> k in r || k == i;
    }
  }

  lemma AscendingAppend(r: seq<int>, x: int)
    requires Ascending(r) && forall j :: 0 <= j < |r| ==> r[j] < x
    ensures Ascending(r + [x])
  {
  }

  /** The loop of `get_selected_indices`: the positions of the selected items, ascending. */
  method SelectedPositions(flags: seq<bool>) returns (r: seq<int>)
    ensures Ascending(r) && |r| == CountTrue(flags)
    ensures forall i :: i in r <==> 0 <= i < |flags| && flags[i]
  {
    r := [];
    var i := 0;
    while i < |flags|
      invariant 0 <= i <= |flags|
      invariant PositionsUpTo(flags, r, i)
    {
      PositionsStep(flags, r, i);
      if flags[i] {
        r := r + [i];
      }
      i := i + 1;
    }
    assert flags[..|flags|] == flags;
  }

  function CountTrue(s: seq<bool>): (r: nat)
    ensures r <= |s|
  {
    if |s| == 0 then 0 else CountTrue(s[..|s| - 1]) + (if s[|s| - 1] then 1 else 0)
  }

  lemma CountTrueAppend(s: seq<bool>, b: bool)
    ensures CountTrue(s + [b]) == CountTrue(s) + (if b then 1 else 0)
  {
    assert (s + [b])[..|s|] == s;
  }

  /** A `QSpinBox` whose range is `setRange(1, n)`: Qt raises a maximum below the minimum to it. */
  function SpinMax(n: int): int
  {
    if n < 1 then 1 else n
  }

  /** The value such a spin box keeps when asked to show `v`. */
  function Clamp(v: int, n: int): (r: int)
    ensures 1 <= r <= SpinMax(n)
    ensures 1 <= v <= SpinMax(n) ==> r == v
  {
    if v < 1 then 1 else if v > SpinMax(n) then SpinMax(n) else v
  }

  /** `FrameSelectionCompact`: a checkable "From"/"To" frame range, 1-based. */
  class FrameSelectionCompact {
    var frameCount: int
    var rangeChecked: bool
    var startValue: int
    var endValue: int

    /** Both spins inside their range, and the range never reversed. */
    ghost predicate Valid()
      reads this
    {
      1 <= startValue <= endValue <= SpinMax(frameCount)
    }

    /** Unchecked, from the first frame to the last. */
    constructor(frameCount: int)
      ensures Valid() && !rangeChecked
      ensures this.frameCount == frameCount && startValue == 1 && endValue == SpinMax(frameCount)
    {
      this.frameCount := frameCount;
      rangeChecked := false;
      startValue := 1;
      endValue := Clamp(frameCount, frameCount);
    }

    /** `_on_range_toggled`. */
    method OnRangeToggled(checked: bool)
      modifies this
      ensures rangeChecked == checked
      ensures frameCount == old(frameCount) && startValue == old(startValue) && endValue == old(endValue)
    {
      rangeChecked := checked;
    }

    /** The user sets the "From" spin; `_on_range_changed` pulls "To" up to it. */
    method SetStart(v: int)
      requires Valid()
      modifies this
      ensures Valid()
      ensures startValue == Clamp(v, frameCount)
      ensures endValue == if old(endValue) < startValue then startValue else old(endValue)
      ensures frameCount == old(frameCount) && rangeChecked == old(rangeChecked)
    {
      startValue := Clamp(v, frameCount);
      OnRangeChanged();
    }

    /** The user sets the "To" spin; `_on_range_changed` puts it back up to "From" if it went below. */
    method SetEnd(v: int)
      requires Valid()
      modifies this
      ensures Valid()
      ensures endValue == if Clamp(v, frameCount) < startValue then startValue else Clamp(v, frameCount)
      ensures startValue == old(startValue)
      ensures frameCount == old(frameCount) && rangeChecked == old(rangeChecked)
    {
      endValue := Clamp(v, frameCount);
      OnRangeChanged();
    }

    /** `_on_range_changed`: a reversed range is closed by raising its end. */
    method OnRangeChanged()
      requires 1 <= startValue <= SpinMax(frameCount) && 1 <= endValue <= SpinMax(frameCount)
      modifies this
      ensures Valid()
      ensures endValue == if old(startValue) > old(endValue) then old(startValue) else old(endValue)
      ensures startValue == old(startValue) && frameCount == old(frameCount) && rangeChecked == old(rangeChecked)
    {
      if startValue > endValue {
        endValue := startValue;
      }
    }

    /** `update_frame_count`: both spins take the new range and "To" moves to the last frame. */
    method UpdateFrameCount(frameCount: int)
      requires Valid()
      modifies this
      ensures Valid() && this.frameCount == frameCount
      ensures startValue == Clamp(old(startValue), frameCount) && endValue == SpinMax(frameCount)
      ensures rangeChecked == old(rangeChecked)
    {
      this.frameCount := frameCount;
      startValue := Clamp(startValue, frameCount);
      endValue := Clamp(frameCount, frameCount);
    }

    /** `get_selected_indices`: the checked range as 0-based indices, or None for every frame. */
    function GetSelectedIndices(): (r: Option<seq<int>>)
      requires Valid()
      reads this
      ensures r.None? <==> !rangeChecked
      ensures r.Some? ==> |r.value| == endValue - startValue + 1 && |r.value| >= 1 && Ascending(r.value)
      ensures r.Some? && frameCount >= 1 ==> forall k :: k in r.value ==> 0 <= k < frameCount
      ensures r.Some? ==> r.value[0] == startValue - 1 && r.value[|r.value| - 1] == endValue - 1
    {
      if rangeChecked then Some(Range(startValue - 1, endValue)) else None
    }
  }

  /** `os.path.join(a, b)` on POSIX: an absolute `b` replaces `a`; one separator between. */
  function PathJoin(a: string, b: string): (r: string)
    ensures |b| > 0 && b[0] == '/' ==> r == b
    ensures |b| <= |r| && r[|r| - |b|..] == b
  {
    if |b| > 0 && b[0] == '/' then b
    else if a == "" || a[|a| - 1] == '/' then a + b
    else a + "/" + b
  }

  /** The keys of the base settings that a segment's settings replace. */
  datatype ExportSettings = ExportSettings(outputDir: string, baseName: string)

  /** One per-segment configuration: the base settings, renamed, with the segment's frames. */
  datatype SegmentExportConfig = SegmentExportConfig(
    outputDir: string, baseName: string, segmentName: string,
    segmentStart: int, segmentEnd: int, frameIndices: seq<int>)

  /** The config made for a known segment. */
  function ConfigFor(base: ExportSettings, separateFolders: bool, includeSegmentName: bool,
                     name: string, s: SegmentData): (c: SegmentExportConfig)
    ensures c.segmentName == name && c.segmentStart == s.startFrame && c.segmentEnd == s.endFrame
    ensures c.frameIndices == Range(s.startFrame, s.endFrame + 1)
    ensures c.outputDir == if separateFolders then PathJoin(base.outputDir, name) else base.outputDir
    ensures c.baseName == if includeSegmentName then base.baseName + "_" + name else base.baseName
  {
    SegmentExportConfig(
      if separateFolders then PathJoin(base.outputDir, name) else base.outputDir,
      if includeSegmentName then base.baseName + "_" + name else base.baseName,
      name, s.startFrame, s.endFrame, Range(s.startFrame, s.endFrame + 1))
  }

  /** The configs of the selected names that name a segment, in selection order. */
  function SegmentConfigs(base: ExportSettings, separateFolders: bool, includeSegmentName: bool,
                          selected: seq<string>, segments: Dict<string, SegmentData>): seq<SegmentExportConfig>
  {
    if |selected| == 0 then []
    else
      var init := SegmentConfigs(base, separateFolders, includeSegmentName, selected[..|selected| - 1], segments);
      var name := selected[|selected| - 1];
      var s := Get(segments, name);
      if s.None? then init else init + [ConfigFor(base, separateFolders, includeSegmentName, name, s.value)]
  }

  /**
   * `prepare_segment_export_settings`: one config per selected name that
   * names a segment; unknown names are skipped. Both options default to
   * true when absent.
   */
  method PrepareSegmentExportSettings(base: ExportSettings, separateFolders: Option<bool>,
                                      includeSegmentName: Option<bool>, selected: Option<seq<string>>,
                                      segments: Dict<string, SegmentData>)
    returns (configs: seq<SegmentExportConfig>)
    ensures configs == SegmentConfigs(base, separateFolders != Some(false), includeSegmentName != Some(false),
                                      if selected.Some? then selected.value else [], segments)
  {
    var names := if selected.Some? then selected.value else [];
    var separate := if separateFolders.Some? then separateFolders.value else true;
    var withName := if includeSegmentName.Some? then includeSegmentName.value else true;
    configs := [];
    var i := 0;
    while i < |names|
      invariant 0 <= i <= |names|
      invariant configs == SegmentConfigs(base, separate, withName, names[..i], segments)
    {
      assert names[..i + 1][..i] == names[..i];
      var name := names[i];
      var segment := Get(segments, name);
      if segment.Some? {
        configs := configs + [ConfigFor(base, separate, withName, name, segment.value)];
      }
      i := i + 1;
    }
    assert names[..|names|] == names;
  }

  /** The config is for a selected name that names a segment and covers that segment's frames. */
  ghost predicate ConfigOfSelected(c: SegmentExportConfig, selected: seq<string>, segments: Dict<string, SegmentData>)
  {
    c.segmentName in selected && Get(segments, c.segmentName).Some? &&
    c.frameIndices == Range(Get(segments, c.segmentName).value.startFrame,
                            Get(segments, c.segmentName).value.endFrame + 1)
  }

  /** Some config is for the name. */
  ghost predicate HasConfigFor(configs: seq<SegmentExportConfig>, name: string)
  {
    exists c :: c in configs && c.segmentName == name
  }

  /**
   * Every config is for a selected name that names a segment, covers that
   * segment's frames, and each selected segment gets a config.
   */
  lemma SegmentConfigsSound(base: ExportSettings, separateFolders: bool, includeSegmentName: bool,
                            selected: seq<string>, segments: Dict<string, SegmentData>)
    ensures forall c :: c in SegmentConfigs(base, separateFolders, includeSegmentName, selected, segments) ==>
      ConfigOfSelected(c, selected, segments)
    ensures forall name :: name in selected && Get(segments, name).Some? ==>
      HasConfigFor(SegmentConfigs(base, separateFolders, includeSegmentName, selected, segments), name)
    ensures |SegmentConfigs(base, separateFolders, includeSegmentName, selected, segments)| <= |selected|
  {
    SegmentConfigsOfSelected(base, separateFolders, includeSegmentName, selected, segments);
    SegmentConfigsCover(base, separateFolders, includeSegmentName, selected, segments);
  }

  lemma {:induction false} SegmentConfigsOfSelected(base: ExportSettings, separateFolders: bool, includeSegmentName: bool,
                                                    selected: seq<string>, segments: Dict<string, SegmentData>)
    ensures forall c :: c in SegmentConfigs(base, separateFolders, includeSegmentName, selected, segments) ==>
      ConfigOfSelected(c, selected, segments)
    ensures |SegmentConfigs(base, separateFolders, includeSegmentName, selected, segments)| <= |selected|
  {
    if |selected| > 0 {
      var init := selected[..|selected| - 1];
      SegmentConfigsOfSelected(base, separateFolders, includeSegmentName, init, segments);
      var ri := SegmentConfigs(base, separateFolders, includeSegmentName, init, segments);
      forall c | c in SegmentConfigs(base, separateFolders, includeSegmentName, selected, segments)
        ensures ConfigOfSelected(c, selected, segments)
      {
        if c in ri {
          assert c.segmentName in init;
          assert init == selected[..|selected| - 1];
        }
      }
    }
  }

  lemma {:induction false} SegmentConfigsCover(base: ExportSettings, separateFolders: bool, includeSegmentName: bool,
                                               selected: seq<string>, segments: Dict<string, SegmentData>)
    ensures forall name :: name in selected && Get(segments, name).Some? ==>
      HasConfigFor(SegmentConfigs(base, separateFolders, includeSegmentName, selected, segments), name)
  {
    if |selected| > 0 {
      var init, last := selected[..|selected| - 1], selected[|selected| - 1];
      SegmentConfigsCover(base, separateFolders, includeSegmentName, init, segments);
      var r := SegmentConfigs(base, separateFolders, includeSegmentName, selected, segments);
      var ri := SegmentConfigs(base, separateFolders, includeSegmentName, init, segments);
      forall name | name in selected && Get(segments, name).Some?
        ensures HasConfigFor(r, name)
      {
        if name == last {
          assert r[|r| - 1].segmentName == name;
        } else {
          assert name in init by {
            assert selected == init + [last];
          }
          var c :| c in ri && c.segmentName == name;
          assert c in r;
        }
      }
    }
  }

  /** The frames each selected segment spans, `end - start + 1` summed over known segments. */
  function TotalFrames(selected: seq<string>, segments: Dict<string, SegmentData>): int
  {
    if |selected| == 0 then 0
    else
      var s := Get(segments, selected[|selected| - 1]);
      TotalFrames(selected[..|selected| - 1], segments) +
        (if s.Some? then s.value.endFrame - s.value.startFrame + 1 else 0)
  }

  /** `calculate_total_frames_for_segments`. */
  method CalculateTotalFramesForSegments(selected: seq<string>, segments: Dict<string, SegmentData>)
    returns (total: int)
    ensures total == TotalFrames(selected, segments)
  {
    total := 0;
    var i := 0;
    while i < |selected|
      invariant 0 <= i <= |selected|
      invariant total == TotalFrames(selected[..i], segments)
    {
      assert selected[..i + 1][..i] == selected[..i];
      var segment := Get(segments, selected[i]);
      if segment.Some? {
        total := total + segment.value.endFrame - segment.value.startFrame + 1;
      }
      i := i + 1;
    }
    assert selected[..|selected|] == selected;
  }

  function FrameIndexCount(configs: seq<SegmentExportConfig>): int
  {
    if |configs| == 0 then 0 else FrameIndexCount(configs[..|configs| - 1]) + |configs[|configs| - 1].frameIndices|
  }

  /**
   * For segments whose end is not before their start, the total the
   * dialog reports is the number of frame indices the per-segment configs
   * export.
   */
  lemma {:induction false} TotalMatchesConfigs(base: ExportSettings, separateFolders: bool, includeSegmentName: bool,
                                               selected: seq<string>, segments: Dict<string, SegmentData>)
    requires forall i :: 0 <= i < |segments| ==> segments[i].1.startFrame <= segments[i].1.endFrame
    ensures TotalFrames(selected, segments) ==
      FrameIndexCount(SegmentConfigs(base, separateFolders, includeSegmentName, selected, segments))
  {
    if |selected| > 0 {
      var init := selected[..|selected| - 1];
      TotalMatchesConfigs(base, separateFolders, includeSegmentName, init, segments);
      var s := Get(segments, selected[|selected| - 1]);
      var ri := SegmentConfigs(base, separateFolders, includeSegmentName, init, segments);
      if s.Some? {
        var c := ConfigFor(base, separateFolders, includeSegmentName, selected[|selected| - 1], s.value);
        assert (ri + [c])[..|ri|] == ri;
      }
    }
  }
}
