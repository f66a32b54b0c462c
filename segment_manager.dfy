// Animation segments of managers/animation_segment_manager.py: named,
// inclusive frame ranges with per-frame holds, their validation and dict
// form, and the manager's name -> segment table.
module SegmentManager {
  import opened Wrappers
  import opened Strings
  import opened PyDict

  type Rgb = (int, int, int)

  const DEFAULT_SEGMENT_COLOR: Rgb := (100, 150, 200)

  /** `AnimationSegmentData` after `__post_init__`: tags and holds are never None. */
  datatype SegmentData = SegmentData(
    name: string,
    startFrame: int,
    endFrame: int,
    colorRgb: Rgb,
    description: string,
    tags: seq<string>,
    bounceMode: bool,
    frameHolds: Dict<int, int>)

  /** A segment as `add_segment` creates it: no tags, no bounce, no holds. */
  function NewSegment(name: string, startFrame: int, endFrame: int, color: Rgb, description: string): SegmentData
  {
    SegmentData(name, startFrame, endFrame, color, description, [], false, [])
  }

  /** The `frame_count` property: the size of the inclusive range. */
  function FrameCount(s: SegmentData): int
  {
    s.endFrame - s.startFrame + 1
  }

  /** Frame f lies in the segment's inclusive range. */
  predicate HasFrame(s: SegmentData, f: int)
  {
    s.startFrame <= f <= s.endFrame
  }

  /** `not name.strip()`: the name is empty once white space is stripped. */
  predicate Blank(name: string)
    ensures Blank(name) <==> AllSpace(name)
  {
    BlankIffAllSpace(name);
    Strip(name) == ""
  }

  /** The reasons `validate` gives, in the order it checks them. */
  datatype SegmentError = BlankName | NegativeStart | EndBeforeStart | StartBeyondFrames | EndBeyondFrames

  /** What `validate` accepts: a non-blank name, 0 <= start <= end, and with a frame limit the end below it. */
  predicate Acceptable(s: SegmentData, maxFrames: Option<int>)
  {
    !AllSpace(s.name) && 0 <= s.startFrame <= s.endFrame && (maxFrames.Some? ==> s.endFrame < maxFrames.value)
  }

  /**
   * `validate`: a non-blank name, 0 <= start <= end, and with a frame limit
   * both ends below it.
   */
  function Validate(s: SegmentData, maxFrames: Option<int>): (r: Option<SegmentError>)
    ensures r.None? <==> Acceptable(s, maxFrames)
    ensures r.None? ==> 1 <= FrameCount(s) && (maxFrames.Some? ==> FrameCount(s) <= maxFrames.value)
    ensures AllSpace(s.name) ==> r == Some(BlankName)
    ensures r == Some(StartBeyondFrames) ==> maxFrames.Some? && s.startFrame >= maxFrames.value
    ensures r == Some(EndBeyondFrames) ==> maxFrames.Some? && s.endFrame >= maxFrames.value
  {
    if Blank(s.name) then Some(BlankName)
    else if s.startFrame < 0 then Some(NegativeStart)
    else if s.endFrame < s.startFrame then Some(EndBeforeStart)
    else if maxFrames.Some? && s.startFrame >= maxFrames.value then Some(StartBeyondFrames)
    else if maxFrames.Some? && s.endFrame >= maxFrames.value then Some(EndBeyondFrames)
    else None
  }

  /** The inclusive interval test of `_find_overlapping_segment` and `has_overlapping_segments`. */
  predicate Overlaps(s: SegmentData, startFrame: int, endFrame: int)
  {
    startFrame <= s.endFrame && s.startFrame <= endFrame
  }

  /** For non-empty ranges the test holds exactly when some frame lies in both. */
  lemma OverlapIsSharedFrame(s: SegmentData, startFrame: int, endFrame: int)
    requires s.startFrame <= s.endFrame && startFrame <= endFrame
    ensures Overlaps(s, startFrame, endFrame) <==> exists f :: HasFrame(s, f) && startFrame <= f <= endFrame
  {
    if Overlaps(s, startFrame, endFrame) {
      var f := if s.startFrame <= startFrame then startFrame else s.startFrame;
      assert HasFrame(s, f) && startFrame <= f <= endFrame;
    }
  }

  // ----- Dict form -----

  /** A frame-hold key: an int in memory, a string once the dict went through JSON. */
  datatype HoldKey = IntKey(i: int) | StrKey(s: string)

  /**
   * The dict `to_dict` returns and `from_dict` reads. Fields that older files
   * may lack (`bounce_mode`, `frame_holds`) or hold as None (`tags`) are options.
   */
  datatype SegmentDict = SegmentDict(
    name: string,
    startFrame: int,
    endFrame: int,
    colorRgb: Rgb,
    description: string,
    tags: Option<seq<string>>,
    bounceMode: Option<bool>,
    frameHolds: Option<seq<(HoldKey, int)>>)

  /** The hold entries as `asdict` leaves them: int keys, in order. */
  function IntKeys(holds: Dict<int, int>): (r: seq<(HoldKey, int)>)
    ensures |r| == |holds| && forall i :: 0 <= i < |holds| ==> r[i] == (IntKey(holds[i].0), holds[i].1)
  {
    if |holds| == 0 then []
    else IntKeys(holds[..|holds| - 1]) + [(IntKey(holds[|holds| - 1].0), holds[|holds| - 1].1)]
  }

  /** `to_dict` (`dataclasses.asdict`): every field, hold keys as ints. */
  function ToDict(s: SegmentData): SegmentDict
  {
    SegmentDict(s.name, s.startFrame, s.endFrame, s.colorRgb, s.description,
                Some(s.tags), Some(s.bounceMode), Some(IntKeys(s.frameHolds)))
  }

  /** What JSON does to a dict's keys: they become their decimal strings. */
  function JsonKeys(d: SegmentDict): SegmentDict
  {
    d.(frameHolds := if d.frameHolds.None? then None else Some(StringKeys(d.frameHolds.value)))
  }

  /** `json.dump` writes an int key as its decimal string. */
  function JsonKey(k: HoldKey): HoldKey
  {
    if k.IntKey? then StrKey(IntToString(k.i)) else k
  }

  function StringKeys(items: seq<(HoldKey, int)>): (r: seq<(HoldKey, int)>)
    ensures |r| == |items| && forall i :: 0 <= i < |items| ==> r[i] == (JsonKey(items[i].0), items[i].1)
  {
    if |items| == 0 then []
    else StringKeys(items[..|items| - 1]) + [(JsonKey(items[|items| - 1].0), items[|items| - 1].1)]
  }

  /** `int(k)` on a hold key: None where Python raises ValueError. */
  function KeyAsInt(k: HoldKey): Option<int>
  {
    match k
    case IntKey(i) => Some(i)
    case StrKey(s) => ParseInt(s)
  }

  /** The keys of `{int(k): v for k, v in items}` before the dict is built, or None on a bad key. */
  function ParseKeys(items: seq<(HoldKey, int)>): (r: Option<seq<(int, int)>>)
    ensures r.Some? ==> |r.value| == |items|
  {
    if |items| == 0 then Some([])
    else
      var init := ParseKeys(items[..|items| - 1]);
      var k := KeyAsInt(items[|items| - 1].0);
      if init.None? || k.None? then None else Some(init.value + [(k.value, items[|items| - 1].1)])
  }

  /**
   * `from_dict`: fills in missing `bounce_mode`, `frame_holds` and `tags`,
   * converts hold keys with `int()`, and fails where that raises.
   */
  function FromDict(d: SegmentDict): Option<SegmentData>
  {
    var holds := if d.frameHolds.None? then Some([]) else ParseKeys(d.frameHolds.value);
    if holds.None? then None
    else
      Some(SegmentData(d.name, d.startFrame, d.endFrame, d.colorRgb, d.description,
                       if d.tags.None? then [] else d.tags.value,
                       if d.bounceMode.None? then false else d.bounceMode.value,
                       FromItems(holds.value)))
  }

  /** Reading one more key: the keys read so far, then that key's int, unless either fails. */
  lemma ParseKeysSnoc(items: seq<(HoldKey, int)>, x: (HoldKey, int))
    ensures ParseKeys(items + [x]) ==
      var init := ParseKeys(items);
      var k := KeyAsInt(x.0);
      if init.None? || k.None? then None else Some(init.value + [(k.value, x.1)])
  {
    assert (items + [x])[..|items|] == items;
  }

  /** Reading keys succeeds with `read` when every key reads as the int at the same place. */
  lemma {:induction false} ParseKeysPointwise(items: seq<(HoldKey, int)>, read: seq<(int, int)>)
    requires |items| == |read|
    requires forall i :: 0 <= i < |items| ==> KeyAsInt(items[i].0) == Some(read[i].0) && items[i].1 == read[i].1
    ensures ParseKeys(items) == Some(read)
  {
    if |items| > 0 {
      var n := |items| - 1;
      ParseKeysPointwise(items[..n], read[..n]);
      ParseKeysSnoc(items[..n], items[n]);
      assert items == items[..n] + [items[n]];
      assert read == read[..n] + [(read[n].0, items[n].1)];
    }
  }

  lemma ParseIntKeys(holds: Dict<int, int>)
    ensures ParseKeys(IntKeys(holds)) == Some(holds)
  {
    ParseKeysPointwise(IntKeys(holds), holds);
  }

  /** An int key written to JSON reads back as the same int. */
  lemma JsonKeyRoundTrip(i: int)
    ensures KeyAsInt(JsonKey(IntKey(i))) == Some(i)
  {
    ParseIntRoundTrip(i);
  }

  lemma ParseStringKeys(holds: Dict<int, int>)
    ensures ParseKeys(StringKeys(IntKeys(holds))) == Some(holds)
  {
    var items := StringKeys(IntKeys(holds));
    forall i | 0 <= i < |items|
      ensures KeyAsInt(items[i].0) == Some(holds[i].0) && items[i].1 == holds[i].1
    {
      assert items[i] == (JsonKey(IntKey(holds[i].0)), holds[i].1);
      JsonKeyRoundTrip(holds[i].0);
    }
    ParseKeysPointwise(items, holds);
  }

  /** `from_dict(to_dict(s))` gives s back. */
  lemma DictRoundTrip(s: SegmentData)
    requires DistinctKeys(s.frameHolds)
    ensures FromDict(ToDict(s)) == Some(s)
  {
    ParseIntKeys(s.frameHolds);
    FromItemsDistinct(s.frameHolds);
  }

  /** Through JSON the hold keys become strings, and `from_dict` turns them back into the same ints. */
  lemma JsonRoundTrip(s: SegmentData)
    requires DistinctKeys(s.frameHolds)
    ensures FromDict(JsonKeys(ToDict(s))) == Some(s)
  {
    ParseStringKeys(s.frameHolds);
    FromItemsDistinct(s.frameHolds);
  }

  /**
   * A file written before bounce mode and holds existed loads with both
   * off, and an entry without tags loads with none.
   */
  lemma OldFormatDefaults(d: SegmentDict)
    requires d.bounceMode.None? && d.frameHolds.None?
    ensures FromDict(d).Some? && !FromDict(d).value.bounceMode && FromDict(d).value.frameHolds == []
    ensures d.tags.None? ==> FromDict(d).value.tags == []
  {
  }

  // ----- Updates -----

  /**
   * The fields `update_segment` assigns, each only when given. It writes
   * them into the stored object before validating.
   */
  function ApplyUpdate(s: SegmentData, startFrame: Option<int>, endFrame: Option<int>, newName: Option<string>,
                       color: Option<Rgb>, description: Option<string>): (r: SegmentData)
    ensures r.startFrame == (if startFrame.Some? then startFrame.value else s.startFrame)
    ensures r.endFrame == (if endFrame.Some? then endFrame.value else s.endFrame)
    ensures r.name == (if newName.Some? then newName.value else s.name)
    ensures r.colorRgb == (if color.Some? then color.value else s.colorRgb)
    ensures r.description == (if description.Some? then description.value else s.description)
    ensures r.tags == s.tags && r.bounceMode == s.bounceMode && r.frameHolds == s.frameHolds
  {
    s.(startFrame := if startFrame.Some? then startFrame.value else s.startFrame,
       endFrame := if endFrame.Some? then endFrame.value else s.endFrame,
       name := if newName.Some? then newName.value else s.name,
       colorRgb := if color.Some? then color.value else s.colorRgb,
       description := if description.Some? then description.value else s.description)
  }

  /** Python truthiness of an optional string: present and non-empty. */
  predicate Truthy(s: Option<string>)
  {
    s.Some? && s.value != ""
  }

  /** Renaming a filed segment to a free name moves it, renamed, to the end of the table. */
  lemma RenameResult(before: Dict<string, SegmentData>, oldName: string, newName: string)
    requires DistinctKeys(before) && Contains(before, oldName)
    requires newName != oldName && !Contains(before, newName)
    ensures var s := Get(before, oldName).value;
      var after := Remove(before, oldName) + [(newName, ApplyUpdate(s, None, None, Some(newName), None, None))];
      !Contains(after, oldName) && Get(after, newName) == Some(s.(name := newName))
  {
    var s := Get(before, oldName).value;
    var updated := ApplyUpdate(s, None, None, Some(newName), None, None);
    var removed := Remove(before, oldName);
    RemoveSpec(before, oldName);
    assert Get(removed, newName) == Get(before, newName);
    PutSpec(removed, newName, updated);
    assert updated == s.(name := newName);
  }

  /**
   * `update_segment` as written: for any stored valid segment, an update
   * with a negative start frame is rejected, yet the segment it leaves
   * filed is no longer the one that was there.
   */
  lemma FailedUpdateCorrupts(s: SegmentData, maxFrames: int)
    requires Acceptable(s, Some(maxFrames))
    ensures var mutated := ApplyUpdate(s, Some(-1), None, None, None, None);
      Validate(mutated, Some(maxFrames)) == Some(NegativeStart) && mutated != s
  {
    var mutated := ApplyUpdate(s, Some(-1), None, None, None, None);
    assert mutated.startFrame != s.startFrame;
  }

  /**
   * `rename_segment` as written: renaming a segment that passes `validate`
   * to a blank name is rejected, yet the stored segment now carries the
   * blank name.
   */
  lemma BlankRenameCorrupts(s: SegmentData, newName: string, maxFrames: int)
    requires Acceptable(s, Some(maxFrames)) && AllSpace(newName)
    ensures var renamed := ApplyUpdate(s, None, None, Some(newName), None, None);
      Validate(renamed, Some(maxFrames)) == Some(BlankName) && renamed.name == newName && renamed != s
  {
  }

  // ----- Listing overlaps -----

  /** Pairs (a.name, s.name) for each s in `rest` that overlaps a, in order. */
  function PairsWith(a: SegmentData, rest: seq<SegmentData>): seq<(string, string)>
  {
    if |rest| == 0 then []
    else
      var last := rest[|rest| - 1];
      PairsWith(a, rest[..|rest| - 1]) +
      (if Overlaps(a, last.startFrame, last.endFrame) then [(a.name, last.name)] else [])
  }

  /** The pairs `has_overlapping_segments` lists for the first n segments as left partners. */
  function OverlapPairs(segs: seq<SegmentData>, n: nat): seq<(string, string)>
    requires n <= |segs|
  {
    if n == 0 then [] else OverlapPairs(segs, n - 1) + PairsWith(segs[n - 1], segs[n..])
  }

  /** No two segments share a frame. */
  predicate PairwiseDisjoint(segs: seq<SegmentData>)
  {
    forall i, j :: 0 <= i < j < |segs| ==> !Overlaps(segs[i], segs[j].startFrame, segs[j].endFrame)
  }

  lemma {:induction false} PairsWithEmpty(a: SegmentData, rest: seq<SegmentData>)
    ensures PairsWith(a, rest) == [] <==> forall j :: 0 <= j < |rest| ==> !Overlaps(a, rest[j].startFrame, rest[j].endFrame)
  {
    if |rest| > 0 {
      PairsWithEmpty(a, rest[..|rest| - 1]);
      assert forall j :: 0 <= j < |rest| - 1 ==> rest[..|rest| - 1][j] == rest[j];
    }
  }

  /** The overlap list is empty exactly when the segments are pairwise disjoint. */
  lemma {:induction false} NoPairsIffDisjoint(segs: seq<SegmentData>, n: nat)
    requires n <= |segs|
    ensures OverlapPairs(segs, n) == [] <==>
      forall i, j :: 0 <= i < n && i < j < |segs| ==> !Overlaps(segs[i], segs[j].startFrame, segs[j].endFrame)
  {
    if n > 0 {
      NoPairsIffDisjoint(segs, n - 1);
      PairsWithEmpty(segs[n - 1], segs[n..]);
      assert forall j :: n <= j < |segs| ==> segs[n..][j - n] == segs[j];
    }
  }

  /** The inner loop of `has_overlapping_segments`: the partners of `a` among `rest`, in order. */
  method CollectPairsWith(a: SegmentData, rest: seq<SegmentData>) returns (found: seq<(string, string)>)
    ensures found == PairsWith(a, rest)
    ensures found == [] <==> forall j :: 0 <= j < |rest| ==> !Overlaps(a, rest[j].startFrame, rest[j].endFrame)
  {
    found := [];
    var j := 0;
    while j < |rest|
      invariant 0 <= j <= |rest|
      invariant found == PairsWith(a, rest[..j])
    {
      assert rest[..j + 1][..j] == rest[..j];
      if a.startFrame <= rest[j].endFrame && rest[j].startFrame <= a.endFrame {
        found := found + [(a.name, rest[j].name)];
      }
      j := j + 1;
    }
    assert rest[..j] == rest;
    PairsWithEmpty(a, rest);
  }

  // ----- Slicing frames -----

  /** Python's `xs[a:b]` with negative indices counted from the end and bounds clamped. */
  function PySlice<T>(xs: seq<T>, a: int, b: int): (r: seq<T>)
    ensures 0 <= a <= b <= |xs| ==> r == xs[a..b]
    ensures |r| <= |xs|
  {
    var lo := if a < 0 then (if a + |xs| < 0 then 0 else a + |xs|) else (if a > |xs| then |xs| else a);
    var hi := if b < 0 then (if b + |xs| < 0 then 0 else b + |xs|) else (if b > |xs| then |xs| else b);
    if lo < hi then xs[lo..hi] else []
  }

  /**
   * `extract_frames_for_segment` for a known segment: its frames clamped to
   * the list, `all_frames[max(0, start) : min(len - 1, end) + 1]`.
   */
  function SegmentFrames<T>(s: SegmentData, allFrames: seq<T>): (r: seq<T>)
  {
    var start := if s.startFrame > 0 then s.startFrame else 0;
    var end := if |allFrames| - 1 < s.endFrame then |allFrames| - 1 else s.endFrame;
    PySlice(allFrames, start, end + 1)
  }

  /** A valid segment inside the list gets exactly its `frame_count` frames, in order. */
  lemma SegmentFramesExact<T>(s: SegmentData, allFrames: seq<T>)
    requires 0 <= s.startFrame <= s.endFrame < |allFrames|
    ensures SegmentFrames(s, allFrames) == allFrames[s.startFrame..s.endFrame + 1]
    ensures |SegmentFrames(s, allFrames)| == FrameCount(s)
  {
  }

  // ----- Loading a file -----

  /** An entry that converts and passes `validate` against the frame count. */
  predicate AcceptedEntry(d: SegmentDict, maxFrames: int)
  {
    FromDict(d).Some? && Acceptable(FromDict(d).value, Some(maxFrames))
  }

  /**
   * The table the load loop builds from entries that all convert: each
   * accepted entry is filed under its name, a later one replacing an
   * earlier one of the same name in its place.
   */
  function Loaded(entries: seq<SegmentDict>, maxFrames: int): Dict<string, SegmentData>
  {
    if |entries| == 0 then []
    else
      var table := Loaded(entries[..|entries| - 1], maxFrames);
      var last := entries[|entries| - 1];
      if AcceptedEntry(last, maxFrames) then Put(table, FromDict(last).value.name, FromDict(last).value) else table
  }

  /** `loaded_count`: how many entries were accepted. */
  function LoadedCount(entries: seq<SegmentDict>, maxFrames: int): nat
  {
    if |entries| == 0 then 0
    else LoadedCount(entries[..|entries| - 1], maxFrames) + (if AcceptedEntry(entries[|entries| - 1], maxFrames) then 1 else 0)
  }

  /** The names of the entries that convert but fail `validate`, in order. */
  function SkippedNames(entries: seq<SegmentDict>, maxFrames: int): seq<string>
  {
    if |entries| == 0 then []
    else
      var last := entries[|entries| - 1];
      SkippedNames(entries[..|entries| - 1], maxFrames) +
      (if FromDict(last).Some? && !AcceptedEntry(last, maxFrames) then [FromDict(last).value.name] else [])
  }

  /** Some accepted entry carries this name. */
  ghost predicate AcceptedAs(entries: seq<SegmentDict>, maxFrames: int, name: string)
  {
    exists i :: 0 <= i < |entries| && AcceptedEntry(entries[i], maxFrames) && FromDict(entries[i]).value.name == name
  }

  /** Entry i is the first one that does not convert: the load stops there. */
  ghost predicate StopsAt(entries: seq<SegmentDict>, i: int)
  {
    0 <= i < |entries| && FromDict(entries[i]).None? && forall j :: 0 <= j < i ==> FromDict(entries[j]).Some?
  }

  /** The loaded table is filed, every entry counted once as loaded or skipped, and no larger than the count. */
  lemma {:induction false} LoadedFiled(entries: seq<SegmentDict>, maxFrames: int)
    ensures DistinctKeys(Loaded(entries, maxFrames)) && Filed(Loaded(entries, maxFrames), maxFrames)
    ensures |Loaded(entries, maxFrames)| <= LoadedCount(entries, maxFrames)
    ensures (forall i :: 0 <= i < |entries| ==> FromDict(entries[i]).Some?) ==>
      LoadedCount(entries, maxFrames) + |SkippedNames(entries, maxFrames)| == |entries|
  {
    if |entries| > 0 {
      var init := entries[..|entries| - 1];
      LoadedFiled(init, maxFrames);
      var last := entries[|entries| - 1];
      if AcceptedEntry(last, maxFrames) {
        var s := FromDict(last).value;
        PutSpec(Loaded(init, maxFrames), s.name, s);
        PutKeepsFiled(Loaded(init, maxFrames), s, maxFrames);
      }
      if forall i :: 0 <= i < |entries| ==> FromDict(entries[i]).Some? {
        assert forall i :: 0 <= i < |init| ==> FromDict(init[i]).Some? by {
          forall i | 0 <= i < |init| ensures FromDict(init[i]).Some? {
            assert init[i] == entries[i];
          }
        }
        assert FromDict(last).Some?;
      }
    }
  }

  /** One more converted entry: the fold takes one step. */
  lemma LoadStep(entries: seq<SegmentDict>, i: int, maxFrames: int)
    requires 0 <= i < |entries| && FromDict(entries[i]).Some?
    ensures var s := FromDict(entries[i]).value;
      var accepted := Acceptable(s, Some(maxFrames));
      Loaded(entries[..i + 1], maxFrames) ==
        (if accepted then Put(Loaded(entries[..i], maxFrames), s.name, s) else Loaded(entries[..i], maxFrames)) &&
      LoadedCount(entries[..i + 1], maxFrames) == LoadedCount(entries[..i], maxFrames) + (if accepted then 1 else 0) &&
      SkippedNames(entries[..i + 1], maxFrames) == SkippedNames(entries[..i], maxFrames) + (if accepted then [] else [s.name])
  {
    assert entries[..i + 1][..i] == entries[..i];
    assert entries[..i + 1][i] == entries[i];
  }

  /** A name is in the loaded table exactly when some accepted entry carries it. */
  lemma {:induction false} LoadedMembers(entries: seq<SegmentDict>, maxFrames: int, name: string)
    ensures Contains(Loaded(entries, maxFrames), name) <==> AcceptedAs(entries, maxFrames, name)
  {
    if |entries| > 0 {
      var init := entries[..|entries| - 1];
      var last := entries[|entries| - 1];
      var table := Loaded(init, maxFrames);
      LoadedMembers(init, maxFrames, name);
      LoadedFiled(init, maxFrames);
      AcceptedAsSnoc(entries, maxFrames, name);
      if AcceptedEntry(last, maxFrames) {
        var s := FromDict(last).value;
        assert Loaded(entries, maxFrames) == Put(table, s.name, s);
        PutSpec(table, s.name, s);
        assert Contains(Put(table, s.name, s), name) <==> Get(Put(table, s.name, s), name).Some?;
        assert Contains(table, name) <==> Get(table, name).Some?;
      } else {
        assert Loaded(entries, maxFrames) == table;
      }
    }
  }

  lemma AcceptedAsSnoc(entries: seq<SegmentDict>, maxFrames: int, name: string)
    requires |entries| > 0
    ensures var last := entries[|entries| - 1];
      AcceptedAs(entries, maxFrames, name) <==>
      AcceptedAs(entries[..|entries| - 1], maxFrames, name) ||
      (AcceptedEntry(last, maxFrames) && FromDict(last).value.name == name)
  {
    var init := entries[..|entries| - 1];
    if AcceptedAs(init, maxFrames, name) {
      var i :| 0 <= i < |init| && AcceptedEntry(init[i], maxFrames) && FromDict(init[i]).value.name == name;
      assert entries[i] == init[i];
    }
    if AcceptedAs(entries, maxFrames, name) {
      var i :| 0 <= i < |entries| && AcceptedEntry(entries[i], maxFrames) && FromDict(entries[i]).value.name == name;
      if i < |init| {
        assert init[i] == entries[i];
      }
    }
  }

  /** The last accepted entry with a name is the segment filed under it. */
  lemma {:induction false} LoadedLatest(entries: seq<SegmentDict>, maxFrames: int, i: int)
    requires 0 <= i < |entries| && AcceptedEntry(entries[i], maxFrames)
    requires forall j :: i < j < |entries| && AcceptedEntry(entries[j], maxFrames) ==>
      FromDict(entries[j]).value.name != FromDict(entries[i]).value.name
    ensures Get(Loaded(entries, maxFrames), FromDict(entries[i]).value.name) == Some(FromDict(entries[i]).value)
  {
    var init := entries[..|entries| - 1];
    var last := entries[|entries| - 1];
    var s := FromDict(entries[i]).value;
    LoadedFiled(init, maxFrames);
    if i < |init| {
      assert init[i] == entries[i];
      LoadedLatest(init, maxFrames, i);
      if AcceptedEntry(last, maxFrames) {
        PutSpec(Loaded(init, maxFrames), FromDict(last).value.name, FromDict(last).value);
      }
    } else {
      PutSpec(Loaded(init, maxFrames), s.name, s);
    }
  }

  // ----- The manager -----

  datatype AddError = DuplicateName | OverlapsWith(other: string) | Invalid(error: SegmentError)

  datatype UpdateError = NotFound | NameTaken | InvalidUpdate(error: SegmentError)

  datatype HoldsError = SegmentNotFound | HoldOutOfRange(index: int)

  /** Each entry is filed under its segment's name and passes `validate` against the frame count. */
  ghost predicate Filed(table: Dict<string, SegmentData>, maxFrames: int)
  {
    forall i :: 0 <= i < |table| ==>
      table[i].1.name == table[i].0 && Acceptable(table[i].1, Some(maxFrames))
  }

  /** No two entries share a frame. */
  ghost predicate Disjoint(table: Dict<string, SegmentData>)
  {
    forall i, j :: 0 <= i < j < |table| ==>
      !Overlaps(table[i].1, table[j].1.startFrame, table[j].1.endFrame)
  }

  /** What filing segments only through `add_segment` guarantees. */
  ghost predicate ConsistentTable(table: Dict<string, SegmentData>, maxFrames: int)
  {
    DistinctKeys(table) && Filed(table, maxFrames) && Disjoint(table)
  }

  /** A filed segment has a name that is not blank, so in particular not empty. */
  lemma FiledNamesNotEmpty(table: Dict<string, SegmentData>, maxFrames: int)
    requires Filed(table, maxFrames)
    ensures forall i :: 0 <= i < |table| ==> table[i].1.name != ""
  {
    forall i | 0 <= i < |table|
      ensures table[i].1.name != ""
    {
      assert !AllSpace(table[i].1.name);
    }
  }

  /** Filing a valid segment under its own name keeps the table filed. */
  lemma PutKeepsFiled(table: Dict<string, SegmentData>, s: SegmentData, maxFrames: int)
    requires Filed(table, maxFrames) && Acceptable(s, Some(maxFrames))
    ensures Filed(Put(table, s.name, s), maxFrames)
  {
    var r := Put(table, s.name, s);
    var i := Find(table, s.name);
    assert forall j :: 0 <= j < |r| ==> r[j] == (if (i.Some? && j == i.value) || j == |table| then (s.name, s) else table[j]);
  }

  /** Deleting an entry keeps the rest filed and disjoint, in order. */
  lemma RemoveKeepsConsistent(table: Dict<string, SegmentData>, name: string, maxFrames: int)
    requires DistinctKeys(table) && Contains(table, name)
    ensures Filed(table, maxFrames) ==> Filed(Remove(table, name), maxFrames)
    ensures Disjoint(table) ==> Disjoint(Remove(table, name))
    ensures DistinctKeys(Remove(table, name))
  {
    RemoveSpec(table, name);
    var i := Find(table, name).value;
    var r := Remove(table, name);
    forall j | 0 <= j < |r|
      ensures r[j] == table[if j < i then j else j + 1]
    {
    }
    if Filed(table, maxFrames) {
      forall j | 0 <= j < |r|
        ensures r[j].1.name == r[j].0 && Acceptable(r[j].1, Some(maxFrames))
      {
        assert r[j] == table[if j < i then j else j + 1];
      }
    }
    if Disjoint(table) {
      forall a, b | 0 <= a < b < |r|
        ensures !Overlaps(r[a].1, r[b].1.startFrame, r[b].1.endFrame)
      {
        assert r[a] == table[if a < i then a else a + 1];
        assert r[b] == table[if b < i then b else b + 1];
      }
    }
  }

  /** Appending a valid segment that overlaps none keeps the table consistent. */
  lemma AppendKeepsConsistent(table: Dict<string, SegmentData>, s: SegmentData, maxFrames: int)
    requires ConsistentTable(table, maxFrames) && !Contains(table, s.name)
    requires Acceptable(s, Some(maxFrames))
    requires forall i :: 0 <= i < |table| ==> !Overlaps(table[i].1, s.startFrame, s.endFrame)
    ensures ConsistentTable(table + [(s.name, s)], maxFrames)
  {
    PutSpec(table, s.name, s);
    PutKeepsFiled(table, s, maxFrames);
    var r := table + [(s.name, s)];
    forall a, b | 0 <= a < b < |r|
      ensures !Overlaps(r[a].1, r[b].1.startFrame, r[b].1.endFrame)
    {
      assert r[a] == table[a];
      if b < |table| {
        assert r[b] == table[b];
      }
    }
  }

  /**
   * The name of the first entry whose range overlaps [startFrame, endFrame],
   * or None when no entry does.
   */
  function FirstOverlap(table: Dict<string, SegmentData>, startFrame: int, endFrame: int): (r: Option<string>)
    ensures r.None? <==> forall i :: 0 <= i < |table| ==> !Overlaps(table[i].1, startFrame, endFrame)
    ensures r.Some? ==>
      exists i :: 0 <= i < |table| && Overlaps(table[i].1, startFrame, endFrame) && r.value == table[i].1.name &&
        forall j :: 0 <= j < i ==> !Overlaps(table[j].1, startFrame, endFrame)
  {
    if |table| == 0 then None
    else if Overlaps(table[0].1, startFrame, endFrame) then Some(table[0].1.name)
    else
      var rest := FirstOverlap(table[1..], startFrame, endFrame);
      assert forall i :: 0 <= i < |table| - 1 ==> table[1..][i] == table[i + 1];
      rest
  }

  /** The scan from entry i reports entry i when it overlaps, and otherwise scans on from i + 1. */
  lemma FirstOverlapStep(table: Dict<string, SegmentData>, i: nat, startFrame: int, endFrame: int)
    requires i < |table|
    ensures FirstOverlap(table[i..], startFrame, endFrame) ==
      if Overlaps(table[i].1, startFrame, endFrame) then Some(table[i].1.name)
      else FirstOverlap(table[i + 1..], startFrame, endFrame)
  {
    assert table[i..][1..] == table[i + 1..];
  }

  class AnimationSegmentManager {
    var segments: Dict<string, SegmentData>
    var spriteSheetPath: string
    var maxFrames: int
    var autoSaveEnabled: bool

    /** The table is a dict: no name is filed twice. */
    ghost predicate Valid()
      reads this
    {
      DistinctKeys(segments)
    }

    /**
     * What adding segments one by one guarantees: each segment is filed
     * under its own name, passes `validate` against the frame count, and no
     * two segments share a frame.
     */
    ghost predicate Consistent()
      reads this
    {
      ConsistentTable(segments, maxFrames)
    }

    constructor()
      ensures Consistent()
      ensures segments == [] && spriteSheetPath == "" && maxFrames == 0 && autoSaveEnabled
    {
      segments := [];
      spriteSheetPath := "";
      maxFrames := 0;
      autoSaveEnabled := true;
    }

    /**
     * `set_sprite_context` without the file load: a different sheet clears
     * the table; the frame count is stored either way.
     */
    method SetSpriteContext(path: string, frameCount: int)
      requires Valid()
      modifies this
      ensures Valid()
      ensures spriteSheetPath == path && maxFrames == frameCount
      ensures segments == (if path != old(spriteSheetPath) then [] else old(segments))
      ensures autoSaveEnabled == old(autoSaveEnabled)
    {
      if path != spriteSheetPath {
        segments := [];
      }
      spriteSheetPath := path;
      maxFrames := frameCount;
    }

    /** `_find_overlapping_segment`: the name of the first stored segment that overlaps the range. */
    method FindOverlappingSegment(startFrame: int, endFrame: int) returns (r: Option<string>)
      ensures r == FirstOverlap(segments, startFrame, endFrame)
    {
      var i := 0;
      while i < |segments|
        invariant 0 <= i <= |segments|
        invariant FirstOverlap(segments[i..], startFrame, endFrame) == FirstOverlap(segments, startFrame, endFrame)
      {
        var s := segments[i].1;
        FirstOverlapStep(segments, i, startFrame, endFrame);
        if startFrame <= s.endFrame && s.startFrame <= endFrame {
          return Some(s.name);
        }
        i := i + 1;
      }
      return None;
    }

    /**
     * `add_segment`: rejects a taken name, then a range overlapping a stored
     * segment (whose name is truthy), then an invalid segment; otherwise files
     * the new segment last.
     */
    method AddSegment(name: string, startFrame: int, endFrame: int, color: Rgb, description: string)
      returns (r: Option<AddError>)
      requires Valid()
      modifies this
      ensures Valid()
      ensures old(Contains(segments, name)) ==> r == Some(DuplicateName)
      ensures r.None? <==>
        !old(Contains(segments, name)) &&
        FirstOverlap(old(segments), startFrame, endFrame) in {None, Some("")} &&
        Acceptable(NewSegment(name, startFrame, endFrame, color, description), Some(maxFrames))
      ensures r.None? ==> segments == old(segments) + [(name, NewSegment(name, startFrame, endFrame, color, description))]
      ensures r.Some? ==> segments == old(segments)
      ensures old(Consistent()) ==> Consistent()
      ensures maxFrames == old(maxFrames) && spriteSheetPath == old(spriteSheetPath)
    {
      if Contains(segments, name) {
        return Some(DuplicateName);
      }
      if Consistent() {
        FiledNamesNotEmpty(segments, maxFrames);
      }
      var overlapping := FindOverlappingSegment(startFrame, endFrame);
      if overlapping.Some? && overlapping.value != "" {
        return Some(OverlapsWith(overlapping.value));
      }
      var segment := NewSegment(name, startFrame, endFrame, color, description);
      var invalid := Validate(segment, Some(maxFrames));
      if invalid.Some? {
        return Some(Invalid(invalid.value));
      }
      PutSpec(segments, name, segment);
      if Consistent() {
        AppendKeepsConsistent(segments, segment, maxFrames);
      }
      segments := Put(segments, name, segment);
      return None;
    }

    /** `remove_segment`: true iff the name was present; removes only that entry. */
    method RemoveSegment(name: string) returns (removed: bool)
      requires Valid()
      modifies this
      ensures Valid()
      ensures removed <==> old(Contains(segments, name))
      ensures removed ==> segments == Remove(old(segments), name) && !Contains(segments, name)
      ensures forall k :: k != name ==> Get(segments, k) == Get(old(segments), k)
      ensures !removed ==> segments == old(segments)
      ensures old(Consistent()) ==> Consistent()
      ensures maxFrames == old(maxFrames) && spriteSheetPath == old(spriteSheetPath)
    {
      if Contains(segments, name) {
        RemoveSpec(segments, name);
        RemoveKeepsConsistent(segments, name, maxFrames);
        segments := Remove(segments, name);
        return true;
      }
      return false;
    }

    /**
     * `update_segment` as written: after the existence and name checks it
     * writes the given fields into the stored segment and only then
     * validates, so a rejected update leaves them in place. An accepted
     * update ends as the corrected one does.
     */
    method UpdateSegmentAsWritten(name: string, startFrame: Option<int>, endFrame: Option<int>,
                                  newName: Option<string>, color: Option<Rgb>, description: Option<string>)
      returns (r: Option<UpdateError>)
      requires Valid()
      modifies this
      ensures Valid()
      ensures r == Some(NotFound) <==> !old(Contains(segments, name))
      ensures r == Some(NameTaken) <==> (old(Contains(segments, name)) && Truthy(newName) && newName.value != name &&
                                          old(Contains(segments, newName.value)))
      ensures r == Some(NotFound) || r == Some(NameTaken) ==> segments == old(segments)
      ensures old(Contains(segments, name)) ==>
        var updated := ApplyUpdate(Get(old(segments), name).value, startFrame, endFrame, newName, color, description);
        (r.None? <==>
          !(Truthy(newName) && newName.value != name && old(Contains(segments, newName.value))) &&
          Acceptable(updated, Some(maxFrames))) &&
        (r.Some? && r.value.InvalidUpdate? ==>
          segments == Put(old(segments), name, updated) && Validate(updated, Some(maxFrames)) == Some(r.value.error)) &&
        (r.None? && Truthy(newName) && newName.value != name ==>
          segments == Remove(old(segments), name) + [(newName.value, updated)]) &&
        (r.None? && !(Truthy(newName) && newName.value != name) ==>
          segments == Put(old(segments), name, updated))
      ensures maxFrames == old(maxFrames) && spriteSheetPath == old(spriteSheetPath)
    {
      if !Contains(segments, name) {
        r := Some(NotFound);
      } else {
        var segment := Get(segments, name).value;
        if Truthy(newName) && newName.value != name && Contains(segments, newName.value) {
          r := Some(NameTaken);
        } else {
          ghost var before := segments;
          segment := ApplyUpdate(segment, startFrame, endFrame, newName, color, description);
          PutSpec(segments, name, segment);
          segments := Put(segments, name, segment);
          var invalid := Validate(segment, Some(maxFrames));
          if invalid.Some? {
            r := Some(InvalidUpdate(invalid.value));
          } else {
            if Truthy(newName) && newName.value != name {
              RemoveAfterPut(before, name, segment);
              RemoveSpec(before, name);
              RemoveSpec(segments, name);
              segments := Remove(segments, name);
              assert !Contains(segments, newName.value) by {
                assert Get(segments, newName.value) == Get(before, newName.value);
              }
              PutSpec(segments, newName.value, segment);
              segments := Put(segments, newName.value, segment);
            }
            r := None;
          }
        }
      }
    }

    /**
     * `update_segment` as evidently intended: the updated segment is
     * validated first, and a rejected update changes nothing. A new, truthy
     * name moves the entry to the end under that name.
     */
    method UpdateSegment(name: string, startFrame: Option<int>, endFrame: Option<int>,
                         newName: Option<string>, color: Option<Rgb>, description: Option<string>)
      returns (r: Option<UpdateError>)
      requires Valid()
      modifies this
      ensures Valid()
      ensures r.Some? ==> segments == old(segments)
      ensures !old(Contains(segments, name)) ==> r == Some(NotFound)
      ensures (old(Contains(segments, name)) && Truthy(newName) && newName.value != name &&
               old(Contains(segments, newName.value))) ==> r == Some(NameTaken)
      ensures old(Contains(segments, name)) ==>
        var updated := ApplyUpdate(Get(old(segments), name).value, startFrame, endFrame, newName, color, description);
        (r.None? <==>
          !(Truthy(newName) && newName.value != name && old(Contains(segments, newName.value))) &&
          Acceptable(updated, Some(maxFrames))) &&
        (r.None? && Truthy(newName) && newName.value != name ==>
          segments == Remove(old(segments), name) + [(newName.value, updated)]) &&
        (r.None? && !(Truthy(newName) && newName.value != name) ==>
          segments == Put(old(segments), name, updated))
      ensures maxFrames == old(maxFrames) && spriteSheetPath == old(spriteSheetPath)
    {
      if !Contains(segments, name) {
        r := Some(NotFound);
      } else {
        var segment := Get(segments, name).value;
        if Truthy(newName) && newName.value != name && Contains(segments, newName.value) {
          r := Some(NameTaken);
        } else {
          var updated := ApplyUpdate(segment, startFrame, endFrame, newName, color, description);
          var invalid := Validate(updated, Some(maxFrames));
          if invalid.Some? {
            r := Some(InvalidUpdate(invalid.value));
          } else {
            if Truthy(newName) && newName.value != name {
              ghost var before := segments;
              RemoveSpec(segments, name);
              segments := Remove(segments, name);
              assert !Contains(segments, newName.value) by {
                assert Get(segments, newName.value) == Get(before, newName.value);
              }
              PutSpec(segments, newName.value, updated);
              segments := Put(segments, newName.value, updated);
            } else {
              PutSpec(segments, name, updated);
              segments := Put(segments, name, updated);
            }
            r := None;
          }
        }
      }
    }

    /** `rename_segment`: an update that changes only the name. */
    method RenameSegment(oldName: string, newName: string) returns (r: Option<UpdateError>)
      requires Valid()
      modifies this
      ensures Valid()
      ensures r.Some? ==> segments == old(segments)
      ensures (old(Contains(segments, oldName)) && newName != "" && newName != oldName &&
               old(Contains(segments, newName))) ==> r == Some(NameTaken)
      ensures r.None? ==> old(Contains(segments, oldName))
      ensures r.None? && newName != oldName ==>
        old(Contains(segments, oldName)) && !Contains(segments, oldName) && Get(segments, newName).Some? &&
        Get(segments, newName).value == Get(old(segments), oldName).value.(name := newName)
      ensures maxFrames == old(maxFrames)
    {
      r := UpdateSegment(oldName, None, None, Some(newName), None, None);
      if r.None? && newName != oldName {
        assert AllSpace("");
        assert Truthy(Some(newName));
        RenameResult(old(segments), oldName, newName);
      }
    }

    /**
     * `rename_segment` as written: it calls `update_segment` as written, so a
     * blank new name is written into the stored segment before the update is
     * rejected.
     */
    method RenameSegmentAsWritten(oldName: string, newName: string) returns (r: Option<UpdateError>)
      requires Valid()
      modifies this
      ensures Valid()
      ensures !old(Contains(segments, oldName)) ==> r == Some(NotFound) && segments == old(segments)
      ensures old(Contains(segments, oldName)) && AllSpace(newName) &&
              (newName == "" || newName == oldName || !old(Contains(segments, newName))) ==>
        r == Some(InvalidUpdate(BlankName)) &&
        segments == Put(old(segments), oldName, Get(old(segments), oldName).value.(name := newName))
      ensures r.None? && newName != oldName ==>
        old(Contains(segments, oldName)) && !Contains(segments, oldName) && Get(segments, newName).Some? &&
        Get(segments, newName).value == Get(old(segments), oldName).value.(name := newName)
      ensures maxFrames == old(maxFrames)
    {
      r := UpdateSegmentAsWritten(oldName, None, None, Some(newName), None, None);
      if old(Contains(segments, oldName)) {
        var s := Get(old(segments), oldName).value;
        var renamed := ApplyUpdate(s, None, None, Some(newName), None, None);
        assert renamed == s.(name := newName);
        if AllSpace(newName) && (newName == "" || newName == oldName || !old(Contains(segments, newName))) {
          assert !Acceptable(renamed, Some(maxFrames));
          assert r != Some(NameTaken) && r != Some(NotFound);
          assert Validate(renamed, Some(maxFrames)) == Some(BlankName);
          assert r.Some? && r.value.InvalidUpdate?;
          assert r.value.error == BlankName;
          assert segments == Put(old(segments), oldName, renamed);
        }
        if r.None? && newName != oldName {
          assert AllSpace("");
          assert Truthy(Some(newName));
          RenameResult(old(segments), oldName, newName);
        }
      }
    }

    /** `set_bounce_mode`. */
    method SetBounceMode(name: string, bounceMode: bool) returns (ok: bool)
      requires Valid()
      modifies this
      ensures Valid()
      ensures ok <==> old(Contains(segments, name))
      ensures ok ==> segments == Put(old(segments), name, Get(old(segments), name).value.(bounceMode := bounceMode))
      ensures !ok ==> segments == old(segments)
      ensures maxFrames == old(maxFrames)
    {
      if !Contains(segments, name) {
        return false;
      }
      var s := Get(segments, name).value;
      PutSpec(segments, name, s.(bounceMode := bounceMode));
      segments := Put(segments, name, s.(bounceMode := bounceMode));
      return true;
    }

    /**
     * `set_frame_holds`: every hold index must lie in [0, frame_count);
     * otherwise the first offending index is reported and nothing changes.
     */
    method SetFrameHolds(name: string, holds: Dict<int, int>) returns (r: Option<HoldsError>)
      requires Valid()
      modifies this
      ensures Valid()
      ensures !old(Contains(segments, name)) ==> r == Some(SegmentNotFound)
      ensures old(Contains(segments, name)) ==>
        var s := Get(old(segments), name).value;
        (r.None? <==> forall i :: 0 <= i < |holds| ==> 0 <= holds[i].0 < FrameCount(s)) &&
        (r.Some? ==> r.value.HoldOutOfRange? && !(0 <= r.value.index < FrameCount(s)) &&
                     exists i :: 0 <= i < |holds| && holds[i].0 == r.value.index) &&
        (r.None? ==> segments == Put(old(segments), name, s.(frameHolds := holds)))
      ensures r.Some? ==> segments == old(segments)
      ensures maxFrames == old(maxFrames)
    {
      if !Contains(segments, name) {
        return Some(SegmentNotFound);
      }
      var s := Get(segments, name).value;
      var i := 0;
      while i < |holds|
        invariant 0 <= i <= |holds|
        invariant forall j :: 0 <= j < i ==> 0 <= holds[j].0 < FrameCount(s)
      {
        var index := holds[i].0;
        if index < 0 || index >= FrameCount(s) {
          return Some(HoldOutOfRange(index));
        }
        i := i + 1;
      }
      PutSpec(segments, name, s.(frameHolds := holds));
      segments := Put(segments, name, s.(frameHolds := holds));
      return None;
    }

    /** `get_segment`. */
    function GetSegment(name: string): (r: Option<SegmentData>)
      reads this
      ensures r.Some? <==> Contains(segments, name)
      ensures r.Some? ==> (name, r.value) in segments
    {
      Get(segments, name)
    }

    /** `clear_segments`. */
    method ClearSegments()
      requires Valid()
      modifies this
      ensures Consistent() && segments == []
      ensures maxFrames == old(maxFrames) && spriteSheetPath == old(spriteSheetPath)
    {
      segments := [];
    }

    /** `has_overlapping_segments`: every overlapping pair, earlier segment first. */
    method HasOverlappingSegments() returns (overlaps: seq<(string, string)>)
      ensures overlaps == OverlapPairs(Values(segments), |segments|)
      ensures overlaps == [] <==> PairwiseDisjoint(Values(segments))
    {
      var segs := Values(segments);
      overlaps := [];
      var i := 0;
      while i < |segs|
        invariant 0 <= i <= |segs|
        invariant overlaps == OverlapPairs(segs, i)
      {
        var found := CollectPairsWith(segs[i], segs[i + 1..]);
        overlaps := overlaps + found;
        i := i + 1;
      }
      NoPairsIffDisjoint(segs, |segs|);
    }

    /** `get_segments_containing_frame`: the names under which the containing segments are filed. */
    function GetSegmentsContainingFrame(frameIndex: int): (names: seq<string>)
      reads this
      ensures forall n :: n in names <==>
        exists i :: 0 <= i < |segments| && segments[i].0 == n &&
          HasFrame(segments[i].1, frameIndex)
    {
      ContainingNames(segments, frameIndex)
    }

    /** `get_segment_at_frame`: the first segment containing the frame. */
    method GetSegmentAtFrame(frameIndex: int) returns (r: Option<SegmentData>)
      ensures r.None? <==> forall i :: 0 <= i < |segments| ==> !HasFrame(segments[i].1, frameIndex)
      ensures r.Some? ==>
        exists i :: 0 <= i < |segments| && segments[i].1 == r.value && HasFrame(r.value, frameIndex) &&
          forall j :: 0 <= j < i ==> !HasFrame(segments[j].1, frameIndex)
    {
      var i := 0;
      while i < |segments|
        invariant 0 <= i <= |segments|
        invariant forall j :: 0 <= j < i ==> !HasFrame(segments[j].1, frameIndex)
      {
        var s := segments[i].1;
        if s.startFrame <= frameIndex <= s.endFrame {
          return Some(s);
        }
        i := i + 1;
      }
      return None;
    }

    /** `extract_frames_for_segment`: nothing for an unknown name. */
    function ExtractFramesForSegment<T>(name: string, allFrames: seq<T>): (r: seq<T>)
      reads this
      ensures !Contains(segments, name) ==> r == []
      ensures Contains(segments, name) ==> r == SegmentFrames(Get(segments, name).value, allFrames)
    {
      var s := GetSegment(name);
      if s.None? then [] else SegmentFrames(s.value, allFrames)
    }

    /**
     * The loop of `load_segments_from_file` once the JSON is read: clears the
     * table, then files each entry that converts and validates under its own
     * name, skipping the rest. A key `int()` cannot read aborts the load with
     * the entries so far kept.
     */
    method LoadSegments(entries: seq<SegmentDict>) returns (ok: bool, loaded: nat, skipped: seq<string>)
      requires Valid()
      modifies this
      ensures Valid()
      ensures ok <==> forall i :: 0 <= i < |entries| ==> FromDict(entries[i]).Some?
      ensures ok ==> segments == Loaded(entries, maxFrames) &&
                     loaded == LoadedCount(entries, maxFrames) && skipped == SkippedNames(entries, maxFrames)
      ensures ok ==> loaded + |skipped| == |entries|
      ensures !ok ==> exists i :: StopsAt(entries, i) && segments == Loaded(entries[..i], maxFrames)
      ensures Filed(segments, maxFrames)
      ensures maxFrames == old(maxFrames) && spriteSheetPath == old(spriteSheetPath)
    {
      var n;
      n, loaded, skipped := LoadPrefix(entries);
      LoadedFiled(entries[..n], maxFrames);
      ok := n == |entries|;
      if ok {
        assert entries[..n] == entries;
      } else {
        assert StopsAt(entries, n);
      }
    }

    /** The loop itself: clears the table and files entries until one fails to convert or none is left. */
    method LoadPrefix(entries: seq<SegmentDict>) returns (n: nat, loaded: nat, skipped: seq<string>)
      modifies this
      ensures n <= |entries| && forall j :: 0 <= j < n ==> FromDict(entries[j]).Some?
      ensures n < |entries| ==> FromDict(entries[n]).None?
      ensures segments == Loaded(entries[..n], maxFrames)
      ensures loaded == LoadedCount(entries[..n], maxFrames) && skipped == SkippedNames(entries[..n], maxFrames)
      ensures loaded + |skipped| == n
      ensures maxFrames == old(maxFrames) && spriteSheetPath == old(spriteSheetPath)
    {
      segments := [];
      loaded, skipped := 0, [];
      n := 0;
      assert entries[..0] == [];
      while n < |entries| && FromDict(entries[n]).Some?
        invariant n <= |entries|
        invariant forall j :: 0 <= j < n ==> FromDict(entries[j]).Some?
        invariant loaded + |skipped| == n
        invariant maxFrames == old(maxFrames) && spriteSheetPath == old(spriteSheetPath)
        invariant segments == Loaded(entries[..n], maxFrames)
        invariant loaded == LoadedCount(entries[..n], maxFrames) && skipped == SkippedNames(entries[..n], maxFrames)
      {
        loaded, skipped := LoadEntry(entries, n, loaded, skipped);
        n := n + 1;
      }
    }

    /** One pass of the load loop over an entry that converts: the table, count and skipped names move on by that entry. */
    method LoadEntry(entries: seq<SegmentDict>, i: int, loaded: nat, skipped: seq<string>)
      returns (loaded': nat, skipped': seq<string>)
      requires 0 <= i < |entries| && FromDict(entries[i]).Some?
      requires segments == Loaded(entries[..i], maxFrames)
      requires loaded == LoadedCount(entries[..i], maxFrames) && skipped == SkippedNames(entries[..i], maxFrames)
      modifies this
      ensures segments == Loaded(entries[..i + 1], maxFrames)
      ensures loaded' == LoadedCount(entries[..i + 1], maxFrames) && skipped' == SkippedNames(entries[..i + 1], maxFrames)
      ensures loaded' + |skipped'| == loaded + |skipped| + 1
      ensures maxFrames == old(maxFrames) && spriteSheetPath == old(spriteSheetPath)
    {
      var s := FromDict(entries[i]).value;
      LoadedFiled(entries[..i], maxFrames);
      LoadStep(entries, i, maxFrames);
      var stored := StoreIfValid(s);
      if stored {
        loaded', skipped' := loaded + 1, skipped;
      } else {
        loaded', skipped' := loaded, skipped + [s.name];
      }
    }

    /** One step of the load loop: a segment that validates is filed under its name. */
    method StoreIfValid(s: SegmentData) returns (stored: bool)
      requires Valid() && Filed(segments, maxFrames)
      modifies this
      ensures Valid() && Filed(segments, maxFrames)
      ensures stored <==> Acceptable(s, Some(maxFrames))
      ensures segments == if stored then Put(old(segments), s.name, s) else old(segments)
      ensures maxFrames == old(maxFrames) && spriteSheetPath == old(spriteSheetPath)
    {
      stored := Validate(s, Some(maxFrames)).None?;
      if stored {
        PutKeepsDistinct(segments, s.name, s);
        PutKeepsFiled(segments, s, maxFrames);
        segments := Put(segments, s.name, s);
      }
    }
  }

  /** The names of the entries whose ranges contain the frame, in table order. */
  function ContainingNames(table: Dict<string, SegmentData>, frameIndex: int): (names: seq<string>)
    ensures forall n :: n in names <==>
      exists i :: 0 <= i < |table| && table[i].0 == n &&
        HasFrame(table[i].1, frameIndex)
  {
    if |table| == 0 then []
    else
      var rest := ContainingNames(table[1..], frameIndex);
      assert forall i :: 0 <= i < |table| - 1 ==> table[1..][i] == table[i + 1];
      (if HasFrame(table[0].1, frameIndex) then [table[0].0] else []) + rest
  }
}
