// The keyboard shortcut registry of managers/shortcut_manager.py: shortcut
// ids mapped to definitions, key sequences mapped back to ids, conflict
// rejection on registration, context gating of key presses, and conflict
// reporting.
module Shortcuts {
  import opened Wrappers
  import opened PyDict

  /** `ShortcutContext`: when a shortcut may fire. */
  datatype ShortcutContext = Global | HasFrames | Playing | Paused

  /** The callback a definition carries: none, one that returns, or one that raises. */
  datatype Callback = NoCallback | Succeeds | Raises

  /** `ShortcutDefinition`, without the Qt action it may be tied to. */
  datatype ShortcutDefinition = ShortcutDefinition(
    key: string, description: string, category: string,
    context: ShortcutContext, callback: Callback)

  /** `ShortcutDefinition(...)`: a key and a description are both required. */
  function MakeDefinition(key: string, description: string, category: string, context: ShortcutContext)
    : (r: Option<ShortcutDefinition>)
    ensures r.Some? <==> key != "" && description != ""
    ensures r.Some? ==> r.value == ShortcutDefinition(key, description, category, context, NoCallback)
  {
    if key == "" || description == "" then None
    else Some(ShortcutDefinition(key, description, category, context, NoCallback))
  }

  function Def(key: string, description: string, category: string, context: ShortcutContext): ShortcutDefinition
  {
    ShortcutDefinition(key, description, category, context, NoCallback)
  }

  /** `SHORTCUT_DEFINITIONS`, in declaration order. */
  const DEFAULT_SHORTCUTS: seq<(string, ShortcutDefinition)> := [
    ("file_open", Def("Ctrl+O", "Open sprite sheet", "file", Global)),
    ("file_quit", Def("Ctrl+Q", "Quit application", "file", Global)),
    ("file_export_frames", Def("Ctrl+E", "Export frames", "file", HasFrames)),
    ("file_export_current", Def("Ctrl+Shift+E", "Export current frame", "file", HasFrames)),
    ("animation_toggle", Def("Space", "Play/Pause animation", "animation", HasFrames)),
    ("animation_prev_frame", Def("Left", "Previous frame", "animation", HasFrames)),
    ("animation_next_frame", Def("Right", "Next frame", "animation", HasFrames)),
    ("animation_first_frame", Def("Home", "First frame", "animation", HasFrames)),
    ("animation_last_frame", Def("End", "Last frame", "animation", HasFrames)),
    ("animation_restart", Def("R", "Restart animation", "animation", HasFrames)),
    ("animation_speed_decrease", Def("[", "Decrease animation speed", "animation", HasFrames)),
    ("animation_speed_increase", Def("]", "Increase animation speed", "animation", HasFrames)),
    ("view_zoom_in", Def("Ctrl++", "Zoom in", "view", Global)),
    ("view_zoom_out", Def("Ctrl+-", "Zoom out", "view", Global)),
    ("view_zoom_fit", Def("Ctrl+0", "Fit to window", "view", Global)),
    ("view_zoom_reset", Def("Ctrl+1", "Reset zoom (100%)", "view", Global)),
    ("view_toggle_grid", Def("G", "Toggle grid overlay", "view", Global))
  ]

  /** The two dicts the manager keeps: `_registered_shortcuts` and `_key_to_shortcut`. */
  datatype Registry = Registry(shortcuts: Dict<string, ShortcutDefinition>, keys: Dict<string, string>)

  /**
   * The two dicts agree: every mapped key names a registered id whose
   * definition has that key, and every registered definition's key maps
   * back to its id.
   */
  ghost predicate Coherent(r: Registry)
  {
    DistinctKeys(r.shortcuts) && DistinctKeys(r.keys) &&
    (forall k :: Contains(r.keys, k) ==>
      Contains(r.shortcuts, Get(r.keys, k).value) && Get(r.shortcuts, Get(r.keys, k).value).value.key == k) &&
    (forall id :: Contains(r.shortcuts, id) ==> Get(r.keys, Get(r.shortcuts, id).value.key) == Some(id))
  }

  /** Both dicts take the new entry, without any check. */
  function Assign(r: Registry, id: string, d: ShortcutDefinition): Registry
  {
    Registry(Put(r.shortcuts, id, d), Put(r.keys, d.key, id))
  }

  /** `_load_default_shortcuts` over a table of definitions. */
  function LoadAll(items: seq<(string, ShortcutDefinition)>): Registry
  {
    if |items| == 0 then Registry([], [])
    else Assign(LoadAll(items[..|items| - 1]), items[|items| - 1].0, items[|items| - 1].1)
  }

  /** No two entries of a definition table share a key sequence. */
  predicate DistinctDefinitionKeys(items: seq<(string, ShortcutDefinition)>)
  {
    forall i, j :: 0 <= i < j < |items| ==> items[i].1.key != items[j].1.key
  }

  /**
   * Loading a table whose ids and keys are all distinct gives coherent
   * dicts, with no id or key that the table does not name.
   */
  lemma {:induction false} LoadAllCoherent(items: seq<(string, ShortcutDefinition)>)
    requires DistinctKeys(items) && DistinctDefinitionKeys(items)
    ensures Coherent(LoadAll(items))
    ensures forall x :: !Contains(items, x) ==> !Contains(LoadAll(items).shortcuts, x)
    ensures forall k :: !UsesKey(items, k) ==> !Contains(LoadAll(items).keys, k)
  {
    if |items| > 0 {
      var init, last := items[..|items| - 1], items[|items| - 1];
      DistinctInit(items);
      DistinctDefinitionKeysSnoc(items);
      LoadAllCoherent(init);
      var r0 := LoadAll(init);
      RegisterKeepsCoherent(r0, last.0, last.1);
      assert Register(r0, last.0, last.1).0 == LoadAll(items);
      PutSpec(r0.shortcuts, last.0, last.1);
      PutSpec(r0.keys, last.1.key, last.0);
      forall x | !Contains(items, x)
        ensures !Contains(LoadAll(items).shortcuts, x)
      {
        ContainsSnoc(items, x);
      }
      forall k | !UsesKey(items, k)
        ensures !Contains(LoadAll(items).keys, k)
      {
        UsesKeySnoc(items, k);
      }
    }
  }

  lemma DefaultIdsDistinct()
    ensures DistinctKeys(DEFAULT_SHORTCUTS)
  {
    IdsDistinctByShape(DEFAULT_SHORTCUTS, [
      (9, 'e', 'i'), (9, 'i', 'i'), (18, 'e', 't'), (19, 'n', '_'), (16, 'l', 'n'), (20, 'm', 'e'),
      (20, 'm', 'x'), (21, 'm', 's'), (20, 'm', 's'), (17, 'r', '_'), (24, 's', 'd'), (24, 's', 'i'),
      (12, 'i', '_'), (13, 'u', 'z'), (13, 'i', 'z'), (15, 'e', 'o'), (16, 'i', 'g')]);
  }

  /** Ids differ when their lengths or their second or eighth characters from the end do. */
  lemma IdsDistinctByShape(items: seq<(string, ShortcutDefinition)>, shapes: seq<(int, char, char)>)
    requires |shapes| == |items|
    requires forall i :: 0 <= i < |items| ==> var id := items[i].0;
      |id| >= 8 && shapes[i] == (|id|, id[|id| - 2], id[|id| - 8])
    requires forall i, j :: 0 <= i < j < |shapes| ==> shapes[i] != shapes[j]
    ensures DistinctKeys(items)
  {
    forall i, j | 0 <= i < j < |items|
      ensures items[i].0 != items[j].0
    {
      assert shapes[i] != shapes[j];
    }
  }

  lemma DefaultKeysDistinct()
    ensures DistinctDefinitionKeys(DEFAULT_SHORTCUTS)
  {
    KeysDistinctByEnd(DEFAULT_SHORTCUTS, [
      (6, 'O'), (6, 'Q'), (6, 'E'), (12, 'E'), (5, 'e'), (4, 't'), (5, 't'), (4, 'e'), (3, 'd'),
      (1, 'R'), (1, '['), (1, ']'), (6, '+'), (6, '-'), (6, '0'), (6, '1'), (1, 'G')]);
  }

  /** Keys differ when their lengths or last characters do. */
  lemma KeysDistinctByEnd(items: seq<(string, ShortcutDefinition)>, ends: seq<(int, char)>)
    requires |ends| == |items|
    requires forall i :: 0 <= i < |items| ==>
      |items[i].1.key| > 0 && ends[i] == (|items[i].1.key|, items[i].1.key[|items[i].1.key| - 1])
    requires forall i, j :: 0 <= i < j < |ends| ==> ends[i] != ends[j]
    ensures DistinctDefinitionKeys(items)
  {
    forall i, j | 0 <= i < j < |items|
      ensures items[i].1.key != items[j].1.key
    {
      assert ends[i] != ends[j];
    }
  }

  /** The default table loads into coherent dicts. */
  lemma DefaultsCoherent()
    ensures Coherent(LoadAll(DEFAULT_SHORTCUTS))
  {
    DefaultIdsDistinct();
    DefaultKeysDistinct();
    LoadAllCoherent(DEFAULT_SHORTCUTS);
  }

  /** The key is taken by a different id. */
  predicate KeyTakenByOther(r: Registry, id: string, key: string)
  {
    Contains(r.keys, key) && Get(r.keys, key).value != id
  }

  /**
   * `register_shortcut` as written: a key owned by another id is refused;
   * otherwise both dicts are assigned, and a key the id owned before stays
   * mapped to it.
   */
  function RegisterAsWritten(r: Registry, id: string, d: ShortcutDefinition): (res: (Registry, bool))
    ensures res.1 <==> !KeyTakenByOther(r, id, d.key)
    ensures !res.1 ==> res.0 == r
  {
    if KeyTakenByOther(r, id, d.key) then (r, false) else (Assign(r, id, d), true)
  }

  /** The key the id was registered under, when it differs from the new one and still maps to the id. */
  predicate StaleKey(r: Registry, id: string, key: string)
  {
    Contains(r.shortcuts, id) && Get(r.shortcuts, id).value.key != key &&
    Get(r.keys, Get(r.shortcuts, id).value.key) == Some(id)
  }

  /**
   * `register_shortcut` as evidently intended: re-registering an id under
   * a new key also drops the id's old key.
   */
  function Register(r: Registry, id: string, d: ShortcutDefinition): (res: (Registry, bool))
    ensures res.1 <==> !KeyTakenByOther(r, id, d.key)
    ensures !res.1 ==> res.0 == r
  {
    if KeyTakenByOther(r, id, d.key) then (r, false)
    else
      var keys := if StaleKey(r, id, d.key) then Remove(r.keys, Get(r.shortcuts, id).value.key) else r.keys;
      (Registry(Put(r.shortcuts, id, d), Put(keys, d.key, id)), true)
  }

  /** `unregister_shortcut`: the definition and its key mapping go; an unknown id is refused. */
  function Unregister(r: Registry, id: string): (res: (Registry, bool))
    ensures res.1 <==> Contains(r.shortcuts, id)
    ensures !res.1 ==> res.0 == r
  {
    if !Contains(r.shortcuts, id) then (r, false)
    else
      var key := Get(r.shortcuts, id).value.key;
      (Registry(Remove(r.shortcuts, id), if Contains(r.keys, key) then Remove(r.keys, key) else r.keys), true)
  }

  /** A context flag read with `.get(name, False)`. */
  predicate Flag(state: Dict<string, bool>, name: string)
  {
    Get(state, name) == Some(true)
  }

  /** `_is_shortcut_active`. */
  predicate IsActive(context: ShortcutContext, state: Dict<string, bool>)
  {
    match context
    case Global => true
    case HasFrames => Flag(state, "has_frames")
    case Playing => Flag(state, "is_playing")
    case Paused => Flag(state, "has_frames") && !Flag(state, "is_playing")
  }

  /** A paused-only shortcut never fires alongside a playing-only one, and needs frames. */
  lemma PausedAndPlayingExclusive(state: Dict<string, bool>)
    ensures !(IsActive(Playing, state) && IsActive(Paused, state))
    ensures IsActive(Paused, state) ==> IsActive(HasFrames, state)
    ensures IsActive(Global, state)
  {
  }

  /** What `handle_key_press` does: handled, not handled, or a KeyError from the lookup. */
  datatype KeyOutcome = Handled | NotHandled | KeyError

  function KeyPress(r: Registry, state: Dict<string, bool>, key: string): KeyOutcome
  {
    if !Contains(r.keys, key) then NotHandled
    else
      var id := Get(r.keys, key).value;
      if !Contains(r.shortcuts, id) then KeyError
      else
        var d := Get(r.shortcuts, id).value;
        if IsActive(d.context, state) && d.callback == Succeeds then Handled else NotHandled
  }

  /** A definition registered under the id, for the key, active, with a callback that returns. */
  predicate Fires(r: Registry, state: Dict<string, bool>, key: string, id: string)
  {
    Contains(r.shortcuts, id) && Get(r.shortcuts, id).value.key == key &&
    IsActive(Get(r.shortcuts, id).value.context, state) && Get(r.shortcuts, id).value.callback == Succeeds
  }

  /**
   * With coherent dicts a key press never fails its lookup, and it is
   * handled exactly when some registered definition for that key is
   * active with a callback that returns.
   */
  lemma CoherentKeyPress(r: Registry, state: Dict<string, bool>, key: string)
    requires Coherent(r)
    ensures KeyPress(r, state, key) != KeyError
    ensures KeyPress(r, state, key) == Handled <==> exists id :: Fires(r, state, key, id)
  {
    if KeyPress(r, state, key) == Handled {
      assert Fires(r, state, key, Get(r.keys, key).value);
    }
    if exists id :: Fires(r, state, key, id) {
      var id :| Fires(r, state, key, id);
      assert Get(r.keys, key) == Some(id);
    }
  }

  /** Assigning an id whose key is free, or already its own, keeps the dicts coherent when the id's old key is dropped first. */
  lemma RegisterKeepsCoherent(r: Registry, id: string, d: ShortcutDefinition)
    requires Coherent(r)
    ensures Coherent(Register(r, id, d).0)
    ensures Register(r, id, d).1 ==>
      Get(Register(r, id, d).0.shortcuts, id) == Some(d) && Get(Register(r, id, d).0.keys, d.key) == Some(id)
  {
    if !KeyTakenByOther(r, id, d.key) {
      var keys := r.keys;
      if StaleKey(r, id, d.key) {
        var oldKey := Get(r.shortcuts, id).value.key;
        RemoveSpec(r.keys, oldKey);
        keys := Remove(r.keys, oldKey);
      }
      forall k | k != d.key && Contains(keys, k)
        ensures Get(keys, k) != Some(id)
      {
        assert Get(keys, k) == Get(r.keys, k);
        assert Get(r.shortcuts, Get(r.keys, k).value).value.key == k;
      }
      forall other | other != id && Contains(r.shortcuts, other)
        ensures Get(keys, Get(r.shortcuts, other).value.key) == Some(other)
      {
        assert Get(r.keys, Get(r.shortcuts, other).value.key) == Some(other);
      }
      AssignCoherent(r, id, d, keys);
      PutSpec(r.shortcuts, id, d);
      PutSpec(keys, d.key, id);
    }
  }

  /** Registration leaves every other id's definition as it was. */
  lemma RegisterKeepsOthers(r: Registry, id: string, d: ShortcutDefinition)
    requires DistinctKeys(r.shortcuts)
    ensures forall other :: other != id ==> Get(Register(r, id, d).0.shortcuts, other) == Get(r.shortcuts, other)
  {
    if !KeyTakenByOther(r, id, d.key) {
      assert Register(r, id, d).0.shortcuts == Put(r.shortcuts, id, d);
      PutSpec(r.shortcuts, id, d);
    }
  }

  /**
   * Registration maps every key as before except the new key and the key
   * the id held before, which a successful re-registration drops.
   */
  lemma RegisterKeepsKeys(r: Registry, id: string, d: ShortcutDefinition)
    requires DistinctKeys(r.keys)
    ensures forall k :: k != d.key && (Contains(r.shortcuts, id) ==> k != Get(r.shortcuts, id).value.key) ==>
      Get(Register(r, id, d).0.keys, k) == Get(r.keys, k)
    ensures Register(r, id, d).1 && StaleKey(r, id, d.key) ==>
      !Contains(Register(r, id, d).0.keys, Get(r.shortcuts, id).value.key)
  {
    if !KeyTakenByOther(r, id, d.key) {
      var keys := r.keys;
      if StaleKey(r, id, d.key) {
        RemoveSpec(r.keys, Get(r.shortcuts, id).value.key);
        keys := Remove(r.keys, Get(r.shortcuts, id).value.key);
      }
      assert Register(r, id, d).0.keys == Put(keys, d.key, id);
      PutSpec(keys, d.key, id);
    }
  }

  /**
   * Assigning id to d over `keys`, a part of r's key dict in which id
   * holds no key but d's and every other id keeps its own key, gives
   * coherent dicts.
   */
  lemma AssignCoherent(r: Registry, id: string, d: ShortcutDefinition, keys: Dict<string, string>)
    requires Coherent(r) && DistinctKeys(keys)
    requires forall k :: Contains(keys, k) ==> Get(keys, k) == Get(r.keys, k)
    requires !KeyTakenByOther(r, id, d.key)
    requires forall k :: k != d.key && Contains(keys, k) ==> Get(keys, k) != Some(id)
    requires forall other :: other != id && Contains(r.shortcuts, other) ==>
      Get(keys, Get(r.shortcuts, other).value.key) == Some(other)
    ensures Coherent(Registry(Put(r.shortcuts, id, d), Put(keys, d.key, id)))
  {
    var s := Registry(Put(r.shortcuts, id, d), Put(keys, d.key, id));
    PutSpec(r.shortcuts, id, d);
    PutSpec(keys, d.key, id);
    forall k | Contains(s.keys, k)
      ensures Contains(s.shortcuts, Get(s.keys, k).value) && Get(s.shortcuts, Get(s.keys, k).value).value.key == k
    {
      if k != d.key {
        assert Get(s.keys, k) == Get(keys, k) == Get(r.keys, k);
      }
    }
    forall other | Contains(s.shortcuts, other)
      ensures Get(s.keys, Get(s.shortcuts, other).value.key) == Some(other)
    {
      if other != id {
        var k := Get(r.shortcuts, other).value.key;
        assert Get(r.keys, k) == Some(other);
      }
    }
  }

  lemma UnregisterKeepsCoherent(r: Registry, id: string)
    requires Coherent(r)
    ensures Coherent(Unregister(r, id).0)
    ensures !Contains(Unregister(r, id).0.shortcuts, id)
  {
    if Contains(r.shortcuts, id) {
      var key := Get(r.shortcuts, id).value.key;
      RemoveSpec(r.shortcuts, id);
      RemoveSpec(r.keys, key);
      var s := Unregister(r, id).0;
      forall k | Contains(s.keys, k)
        ensures Contains(s.shortcuts, Get(s.keys, k).value) && Get(s.shortcuts, Get(s.keys, k).value).value.key == k
      {
        assert Get(s.keys, k) == Get(r.keys, k);
      }
      forall other | Contains(s.shortcuts, other)
        ensures Get(s.keys, Get(s.shortcuts, other).value.key) == Some(other)
      {
        assert Get(s.shortcuts, other) == Get(r.shortcuts, other);
      }
    }
  }

  /**
   * The discrepancy of `register_shortcut` as written: after an id is
   * re-registered under a new key and then unregistered, pressing its old
   * key looks up an id that is no longer registered.
   */
  lemma ReregisterLeavesStaleKey(r: Registry, state: Dict<string, bool>, id: string, d: ShortcutDefinition)
    requires Coherent(r) && Contains(r.shortcuts, id)
    requires d.key != Get(r.shortcuts, id).value.key && !Contains(r.keys, d.key)
    ensures RegisterAsWritten(r, id, d).1
    ensures Unregister(RegisterAsWritten(r, id, d).0, id).1
    ensures KeyPress(Unregister(RegisterAsWritten(r, id, d).0, id).0, state, Get(r.shortcuts, id).value.key) == KeyError
  {
    var oldKey := Get(r.shortcuts, id).value.key;
    var r1 := RegisterAsWritten(r, id, d).0;
    PutSpec(r.shortcuts, id, d);
    PutSpec(r.keys, d.key, id);
    assert Get(r1.shortcuts, id) == Some(d);
    assert Get(r1.keys, oldKey) == Some(id);
    var r2 := Unregister(r1, id).0;
    RemoveSpec(r1.shortcuts, id);
    RemoveSpec(r1.keys, d.key);
    assert Get(r2.keys, oldKey) == Some(id);
  }

  /** With the old key dropped, the same sequence leaves the old key unbound. */
  lemma ReregisterDropsOldKey(r: Registry, state: Dict<string, bool>, id: string, d: ShortcutDefinition)
    requires Coherent(r) && Contains(r.shortcuts, id)
    requires d.key != Get(r.shortcuts, id).value.key && !Contains(r.keys, d.key)
    ensures Register(r, id, d).1
    ensures KeyPress(Unregister(Register(r, id, d).0, id).0, state, Get(r.shortcuts, id).value.key) == NotHandled
  {
    var oldKey := Get(r.shortcuts, id).value.key;
    assert StaleKey(r, id, d.key);
    RemoveSpec(r.keys, oldKey);
    var keys := Remove(r.keys, oldKey);
    PutSpec(keys, d.key, id);
    PutSpec(r.shortcuts, id, d);
    var r1 := Register(r, id, d).0;
    assert r1.keys == Put(keys, d.key, id);
    assert Get(r1.keys, oldKey) == None;
    RemoveSpec(r1.shortcuts, id);
    RemoveSpec(r1.keys, d.key);
    var r2 := Unregister(r1, id).0;
    assert Get(r2.keys, oldKey) == None;
  }

  // ----- Conflict reporting -----

  /** `key_usage` in `detect_conflicts`: each key's first owner in iteration order. */
  function Owners(items: Dict<string, ShortcutDefinition>): Dict<string, string>
  {
    if |items| == 0 then []
    else
      var owners := Owners(items[..|items| - 1]);
      var last := items[|items| - 1];
      if Contains(owners, last.1.key) then owners else Put(owners, last.1.key, last.0)
  }

  /** `detect_conflicts`: (key, first owner, later id) for each later id that repeats a key. */
  function Conflicts(items: Dict<string, ShortcutDefinition>): seq<(string, string, string)>
  {
    if |items| == 0 then []
    else
      var init := items[..|items| - 1];
      var last := items[|items| - 1];
      var owners := Owners(init);
      if Contains(owners, last.1.key) then Conflicts(init) + [(last.1.key, Get(owners, last.1.key).value, last.0)]
      else Conflicts(init)
  }

  /** Some item's definition uses the key. */
  ghost predicate UsesKey(items: Dict<string, ShortcutDefinition>, key: string)
  {
    exists i :: 0 <= i < |items| && items[i].1.key == key
  }

  lemma UsesKeySnoc(items: Dict<string, ShortcutDefinition>, key: string)
    requires |items| > 0
    ensures UsesKey(items, key) <==> UsesKey(items[..|items| - 1], key) || items[|items| - 1].1.key == key
  {
    var init := items[..|items| - 1];
    if UsesKey(items, key) {
      var i :| 0 <= i < |items| && items[i].1.key == key;
      if i < |init| {
        assert init[i] == items[i];
      }
    }
    if UsesKey(init, key) {
      var i :| 0 <= i < |init| && init[i].1.key == key;
      assert items[i] == init[i];
    }
  }

  /** The owners of one more item: its key gains an owner, no other key changes. */
  lemma OwnersStep(items: Dict<string, ShortcutDefinition>, key: string)
    requires |items| > 0
    ensures Contains(Owners(items), key) <==> Contains(Owners(items[..|items| - 1]), key) || items[|items| - 1].1.key == key
  {
    var init, last := items[..|items| - 1], items[|items| - 1];
    var owners := Owners(init);
    assert Owners(items) == if Contains(owners, last.1.key) then owners else Put(owners, last.1.key, last.0);
    if !Contains(owners, last.1.key) {
      OwnersDistinct(init);
      PutSpec(owners, last.1.key, last.0);
      if key != last.1.key {
        assert Get(Put(owners, last.1.key, last.0), key) == Get(owners, key);
      }
    }
  }

  /** A key has an owner exactly when some item uses it. */
  lemma {:induction false} OwnersCover(items: Dict<string, ShortcutDefinition>, key: string)
    ensures Contains(Owners(items), key) <==> UsesKey(items, key)
  {
    if |items| > 0 {
      OwnersCover(items[..|items| - 1], key);
      OwnersStep(items, key);
      UsesKeySnoc(items, key);
    }
  }

  lemma {:induction false} OwnersDistinct(items: Dict<string, ShortcutDefinition>)
    ensures DistinctKeys(Owners(items))
  {
    if |items| > 0 {
      OwnersDistinct(items[..|items| - 1]);
      PutKeepsDistinct(Owners(items[..|items| - 1]), items[|items| - 1].1.key, items[|items| - 1].0);
    }
  }

  /** No conflict is reported exactly when no two definitions share a key. */
  lemma {:induction false} NoConflictsIffDistinctKeys(items: Dict<string, ShortcutDefinition>)
    ensures Conflicts(items) == [] <==> DistinctDefinitionKeys(items)
  {
    if |items| > 0 {
      var init, last := items[..|items| - 1], items[|items| - 1];
      NoConflictsIffDistinctKeys(init);
      OwnersCover(init, last.1.key);
      DistinctDefinitionKeysSnoc(items);
      assert Conflicts(items) == [] <==> Conflicts(init) == [] && !Contains(Owners(init), last.1.key);
    }
  }

  /** One more definition keeps the keys distinct exactly when no earlier one uses its key. */
  lemma DistinctDefinitionKeysSnoc(items: Dict<string, ShortcutDefinition>)
    requires |items| > 0
    ensures DistinctDefinitionKeys(items) <==>
      DistinctDefinitionKeys(items[..|items| - 1]) && !UsesKey(items[..|items| - 1], items[|items| - 1].1.key)
  {
    var init, last := items[..|items| - 1], items[|items| - 1];
    if UsesKey(init, last.1.key) {
      var i :| 0 <= i < |init| && init[i].1.key == last.1.key;
      assert items[i].1.key == items[|items| - 1].1.key;
    }
    if DistinctDefinitionKeys(items) {
      forall i, j | 0 <= i < j < |init|
        ensures init[i].1.key != init[j].1.key
      {
        assert init[i] == items[i] && init[j] == items[j];
      }
    }
    if DistinctDefinitionKeys(init) && !UsesKey(init, last.1.key) {
      forall i, j | 0 <= i < j < |items|
        ensures items[i].1.key != items[j].1.key
      {
        assert items[i] == init[i];
        if j < |init| {
          assert items[j] == init[j];
        }
      }
    }
  }

  /** One more item of the scan: a repeated key adds a conflict, a new key an owner. */
  lemma ScanStep(items: Dict<string, ShortcutDefinition>, i: nat)
    requires i < |items|
    ensures var owners, item := Owners(items[..i]), items[i];
      Owners(items[..i + 1]) == (if Contains(owners, item.1.key) then owners else Put(owners, item.1.key, item.0)) &&
      Conflicts(items[..i + 1]) ==
        if Contains(owners, item.1.key) then Conflicts(items[..i]) + [(item.1.key, Get(owners, item.1.key).value, item.0)]
        else Conflicts(items[..i])
  {
    assert items[..i + 1][..i] == items[..i];
  }

  /** A coherent registry has no two ids on one key, so no conflicts. */
  lemma CoherentHasNoConflicts(r: Registry)
    requires Coherent(r)
    ensures Conflicts(r.shortcuts) == []
  {
    forall i, j | 0 <= i < j < |r.shortcuts|
      ensures r.shortcuts[i].1.key != r.shortcuts[j].1.key
    {
      GetAt(r.shortcuts, i);
      GetAt(r.shortcuts, j);
    }
    NoConflictsIffDistinctKeys(r.shortcuts);
  }

  /** `ShortcutManager`. */
  class ShortcutManager {
    var shortcuts: Dict<string, ShortcutDefinition>
    var keyToShortcut: Dict<string, string>
    var contextState: Dict<string, bool>

    function Current(): Registry
      reads this
    {
      Registry(shortcuts, keyToShortcut)
    }

    /** `__init__`: the default table, loaded in order, and an empty context. */
    constructor()
      ensures Current() == LoadAll(DEFAULT_SHORTCUTS) && contextState == []
      ensures Coherent(Current())
    {
      shortcuts := [];
      keyToShortcut := [];
      contextState := [];
      new;
      var i := 0;
      while i < |DEFAULT_SHORTCUTS|
        invariant 0 <= i <= |DEFAULT_SHORTCUTS|
        invariant Current() == LoadAll(DEFAULT_SHORTCUTS[..i]) && contextState == []
      {
        var (id, definition) := DEFAULT_SHORTCUTS[i];
        assert DEFAULT_SHORTCUTS[..i + 1][..i] == DEFAULT_SHORTCUTS[..i];
        shortcuts := Put(shortcuts, id, definition);
        keyToShortcut := Put(keyToShortcut, definition.key, id);
        i := i + 1;
      }
      assert DEFAULT_SHORTCUTS[..|DEFAULT_SHORTCUTS|] == DEFAULT_SHORTCUTS;
      DefaultsCoherent();
    }

    /** `register_shortcut` as written. */
    method RegisterShortcutAsWritten(id: string, definition: ShortcutDefinition) returns (ok: bool)
      modifies this
      ensures (Current(), ok) == RegisterAsWritten(old(Current()), id, definition)
      ensures contextState == old(contextState)
    {
      if Contains(keyToShortcut, definition.key) {
        var existing := Get(keyToShortcut, definition.key).value;
        if existing != id {
          return false;
        }
      }
      shortcuts := Put(shortcuts, id, definition);
      keyToShortcut := Put(keyToShortcut, definition.key, id);
      return true;
    }

    /** `register_shortcut`, dropping the id's previous key on re-registration. */
    method RegisterShortcut(id: string, definition: ShortcutDefinition) returns (ok: bool)
      modifies this
      ensures (Current(), ok) == Register(old(Current()), id, definition)
      ensures old(Coherent(Current())) ==> Coherent(Current())
      ensures contextState == old(contextState)
    {
      ghost var before := Current();
      ok := true;
      if Contains(keyToShortcut, definition.key) {
        var existing := Get(keyToShortcut, definition.key).value;
        if existing != id {
          ok := false;
        }
      }
      if ok {
        var previous := Get(shortcuts, id);
        if previous.Some? && previous.value.key != definition.key && Get(keyToShortcut, previous.value.key) == Some(id) {
          keyToShortcut := Remove(keyToShortcut, previous.value.key);
        }
        shortcuts := Put(shortcuts, id, definition);
        keyToShortcut := Put(keyToShortcut, definition.key, id);
      }
      assert (Current(), ok) == Register(before, id, definition);
      if Coherent(before) {
        RegisterKeepsCoherent(before, id, definition);
      }
    }

    /** `unregister_shortcut`. */
    method UnregisterShortcut(id: string) returns (ok: bool)
      modifies this
      ensures (Current(), ok) == Unregister(old(Current()), id)
      ensures old(Coherent(Current())) ==> Coherent(Current()) && !Contains(shortcuts, id)
      ensures contextState == old(contextState)
    {
      if old(Coherent(Current())) {
        UnregisterKeepsCoherent(Current(), id);
      }
      if !Contains(shortcuts, id) {
        return false;
      }
      var definition := Get(shortcuts, id).value;
      shortcuts := Remove(shortcuts, id);
      if Contains(keyToShortcut, definition.key) {
        keyToShortcut := Remove(keyToShortcut, definition.key);
      }
      return true;
    }

    /** `set_shortcut_callback`: only a registered id gets the callback. */
    method SetShortcutCallback(id: string, callback: Callback)
      requires DistinctKeys(shortcuts)
      modifies this
      ensures Contains(old(shortcuts), id) ==>
        Get(shortcuts, id) == Some(Get(old(shortcuts), id).value.(callback := callback))
      ensures !Contains(old(shortcuts), id) ==> shortcuts == old(shortcuts)
      ensures forall other :: other != id ==> Get(shortcuts, other) == Get(old(shortcuts), other)
      ensures keyToShortcut == old(keyToShortcut) && contextState == old(contextState)
      ensures old(Coherent(Current())) ==> Coherent(Current())
    {
      if Contains(shortcuts, id) {
        var definition := Get(shortcuts, id).value;
        PutSpec(shortcuts, id, definition.(callback := callback));
        shortcuts := Put(shortcuts, id, definition.(callback := callback));
      }
    }

    /**
     * `handle_key_press`: with coherent dicts it never fails its lookup,
     * and it reports the key handled exactly when a registered definition
     * for the key is active with a callback that returns.
     */
    method HandleKeyPress(key: string) returns (r: KeyOutcome)
      ensures r == KeyPress(Current(), contextState, key)
      ensures Coherent(Current()) ==> r != KeyError && (r == Handled <==> exists id :: Fires(Current(), contextState, key, id))
    {
      if Coherent(Current()) {
        CoherentKeyPress(Current(), contextState, key);
      }
      if !Contains(keyToShortcut, key) {
        return NotHandled;
      }
      var id := Get(keyToShortcut, key).value;
      var found := Get(shortcuts, id);
      if found.None? {
        return KeyError;
      }
      var definition := found.value;
      if !IsActive(definition.context, contextState) {
        return NotHandled;
      }
      match definition.callback
      case NoCallback => return NotHandled;
      case Succeeds => return Handled;
      case Raises => return NotHandled;
    }

    /** `update_context`: the given flags override, all others stay. */
    method UpdateContext(updates: Dict<string, bool>)
      requires DistinctKeys(contextState) && DistinctKeys(updates)
      modifies this
      ensures DistinctKeys(contextState)
      ensures forall k :: Get(contextState, k) == if Contains(updates, k) then Get(updates, k) else Get(old(contextState), k)
      ensures Current() == old(Current())
    {
      UpdateSpec(contextState, updates);
      contextState := Update(contextState, updates);
    }

    /** `detect_conflicts`: one pass over the registered definitions. */
    method DetectConflicts() returns (conflicts: seq<(string, string, string)>)
      ensures conflicts == Conflicts(shortcuts)
      ensures Coherent(Current()) ==> conflicts == []
    {
      conflicts := [];
      var keyUsage: Dict<string, string> := [];
      var i := 0;
      while i < |shortcuts|
        invariant 0 <= i <= |shortcuts|
        invariant keyUsage == Owners(shortcuts[..i]) && conflicts == Conflicts(shortcuts[..i])
      {
        ScanStep(shortcuts, i);
        var (id, definition) := shortcuts[i];
        if Contains(keyUsage, definition.key) {
          conflicts := conflicts + [(definition.key, Get(keyUsage, definition.key).value, id)];
        } else {
          keyUsage := Put(keyUsage, definition.key, id);
        }
        i := i + 1;
      }
      assert shortcuts[..|shortcuts|] == shortcuts;
      if Coherent(Current()) {
        CoherentHasNoConflicts(Current());
      }
    }
  }
}
