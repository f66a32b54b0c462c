// The QAction registry of managers/action_manager.py: action definitions,
// the actions created from them, and the context flags that enable or
// disable them.
module Actions {
  import opened Wrappers
  import opened PyDict

  datatype ActionCategory = File | View | Animation | Help | Toolbar

  /** `ActionDefinition`; the callback is only recorded as present or not. */
  datatype ActionDefinition = ActionDefinition(
    actionId: string, text: string, category: ActionCategory,
    shortcutId: Option<string>, tooltip: string, icon: string,
    hasCallback: bool, enabledByDefault: bool, enabledContext: Option<string>)

  /** `ActionDefinition(...)`: an id and a text are both required. */
  function MakeActionDefinition(actionId: string, text: string, category: ActionCategory,
                                shortcutId: Option<string>, tooltip: string, icon: string,
                                enabledByDefault: bool, enabledContext: Option<string>)
    : (r: Option<ActionDefinition>)
    ensures r.Some? <==> actionId != "" && text != ""
    ensures r.Some? ==> (r.value.actionId == actionId && r.value.text == text && !r.value.hasCallback &&
                         r.value.enabledByDefault == enabledByDefault && r.value.enabledContext == enabledContext)
  {
    if actionId == "" || text == "" then None
    else Some(ActionDefinition(actionId, text, category, shortcutId, tooltip, icon, false, enabledByDefault, enabledContext))
  }

  /** An action that is on unless the frames context is missing. */
  function Plain(id: string, text: string, category: ActionCategory, shortcut: Option<string>,
                 tooltip: string, icon: string): ActionDefinition
  {
    ActionDefinition(id, text, category, shortcut, tooltip, icon, false, true, None)
  }

  /** An action that is off until frames are loaded. */
  function Gated(id: string, text: string, category: ActionCategory, shortcut: Option<string>,
                 tooltip: string, icon: string): ActionDefinition
  {
    ActionDefinition(id, text, category, shortcut, tooltip, icon, false, false, Some("has_frames"))
  }

  /** `ACTION_DEFINITIONS`, in declaration order. */
  const DEFAULT_ACTIONS: seq<(string, ActionDefinition)> := [
    ("file_open", Plain("file_open", "Open...", File, Some("file_open"), "Open sprite sheet", "\U{1F4C1}")),
    ("file_quit", Plain("file_quit", "Quit", File, Some("file_quit"), "Quit application", "")),
    ("file_export_frames", Gated("file_export_frames", "Export Frames...", File, Some("file_export_frames"),
      "Export frames in various formats", "")),
    ("file_export_current", Gated("file_export_current", "Export Current Frame...", File, Some("file_export_current"),
      "Export only the current frame", "")),
    ("view_zoom_in", Plain("view_zoom_in", "Zoom In", View, Some("view_zoom_in"), "Zoom in", "\U{1F50D}+")),
    ("view_zoom_out", Plain("view_zoom_out", "Zoom Out", View, Some("view_zoom_out"), "Zoom out", "\U{1F50D}-")),
    ("view_zoom_fit", Plain("view_zoom_fit", "Fit to Window", View, Some("view_zoom_fit"), "Fit to window",
      "\U{1F50D}\U{21C4}")),
    ("view_zoom_reset", Plain("view_zoom_reset", "Reset Zoom", View, Some("view_zoom_reset"), "Reset zoom (100%)",
      "\U{1F50D}1:1")),
    ("view_toggle_grid", Plain("view_toggle_grid", "Toggle Grid", View, Some("view_toggle_grid"),
      "Toggle grid overlay", "")),
    ("animation_toggle", Gated("animation_toggle", "Play/Pause", Animation, Some("animation_toggle"),
      "Play/Pause animation", "")),
    ("animation_prev_frame", Gated("animation_prev_frame", "Previous Frame", Animation, Some("animation_prev_frame"),
      "Previous frame", "")),
    ("animation_next_frame", Gated("animation_next_frame", "Next Frame", Animation, Some("animation_next_frame"),
      "Next frame", "")),
    ("animation_first_frame", Gated("animation_first_frame", "First Frame", Animation, Some("animation_first_frame"),
      "First frame", "")),
    ("animation_last_frame", Gated("animation_last_frame", "Last Frame", Animation, Some("animation_last_frame"),
      "Last frame", "")),
    ("animation_restart", Gated("animation_restart", "Restart Animation", Animation, Some("animation_restart"),
      "Restart animation from first frame", "")),
    ("animation_speed_decrease", Gated("animation_speed_decrease", "Decrease Speed", Animation,
      Some("animation_speed_decrease"), "Decrease animation speed", "")),
    ("animation_speed_increase", Gated("animation_speed_increase", "Increase Speed", Animation,
      Some("animation_speed_increase"), "Increase animation speed", "")),
    ("toolbar_export", Gated("toolbar_export", "Export", Toolbar, Some("file_export_frames"), "Export frames",
      "\U{1F4BE}")),
    ("help_shortcuts", Plain("help_shortcuts", "Keyboard Shortcuts", Help, None, "Show keyboard shortcuts", "")),
    ("help_about", Plain("help_about", "About", Help, None, "About Sprite Viewer", ""))
  ]

  /** A Python string that is truthy: present and not empty. */
  predicate Truthy(s: Option<string>)
  {
    s.Some? && s.value != ""
  }

  /** A context flag read with `.get(name, False)`. */
  predicate Flag(state: Dict<string, bool>, name: string)
  {
    Get(state, name) == Some(true)
  }

  /**
   * `_should_action_be_enabled`: an action with a context requirement
   * follows that flag, a missing flag counting as false; any other action
   * takes its default.
   */
  predicate ShouldBeEnabled(d: ActionDefinition, state: Dict<string, bool>)
  {
    if !d.enabledByDefault && !Truthy(d.enabledContext) then false
    else if Truthy(d.enabledContext) then Flag(state, d.enabledContext.value)
    else d.enabledByDefault
  }

  /** Raising flags never disables an action, and an action without a requirement ignores them. */
  lemma EnablingIsMonotone(d: ActionDefinition, before: Dict<string, bool>, after: Dict<string, bool>)
    requires forall k :: Flag(before, k) ==> Flag(after, k)
    ensures ShouldBeEnabled(d, before) ==> ShouldBeEnabled(d, after)
    ensures !Truthy(d.enabledContext) ==> (ShouldBeEnabled(d, before) <==> d.enabledByDefault)
  {
  }

  /** With no flags set, exactly the default actions that need no context are enabled. */
  lemma DefaultsWithoutContext(i: nat)
    requires i < |DEFAULT_ACTIONS|
    ensures ShouldBeEnabled(DEFAULT_ACTIONS[i].1, []) <==> DEFAULT_ACTIONS[i].1.enabledContext.None?
    ensures ShouldBeEnabled(DEFAULT_ACTIONS[i].1, [("has_frames", true)])
  {
  }

  /** The state a created `QAction` carries. */
  datatype Action = Action(text: string, tooltip: Option<string>, enabled: bool)

  /** The menu text: the icon, a space and the text, or the text alone. */
  function DisplayText(d: ActionDefinition): (r: string)
    ensures d.icon == "" ==> r == d.text
    ensures d.icon != "" ==> r == d.icon + " " + d.text && |r| == |d.icon| + 1 + |d.text|
  {
    if d.icon != "" then d.icon + " " + d.text else d.text
  }

  /**
   * The tooltip `create_action` sets: none for an empty tooltip, else the
   * tooltip followed by the shortcut's key in parentheses when the
   * shortcut is registered.
   */
  function ToolTip(d: ActionDefinition, shortcutKeys: Dict<string, string>): (r: Option<string>)
    ensures r.None? <==> d.tooltip == ""
    ensures r.Some? ==> |d.tooltip| <= |r.value| && r.value[..|d.tooltip|] == d.tooltip
  {
    if d.tooltip == "" then None
    else if Truthy(d.shortcutId) && Contains(shortcutKeys, d.shortcutId.value) then
      Some(d.tooltip + " (" + Get(shortcutKeys, d.shortcutId.value).value + ")")
    else Some(d.tooltip)
  }

  /** The action `create_action` builds for a definition in the current context. */
  function NewAction(d: ActionDefinition, state: Dict<string, bool>, shortcutKeys: Dict<string, string>): Action
  {
    Action(DisplayText(d), ToolTip(d, shortcutKeys), ShouldBeEnabled(d, state))
  }

  /** `get_actions_requiring_context`: the ids, in order, whose requirement is exactly this context. */
  function RequiringContext(definitions: Dict<string, ActionDefinition>, context: string): (r: seq<string>)
    ensures |r| <= |definitions|
    ensures forall id :: id in r <==>
      exists i :: 0 <= i < |definitions| && definitions[i].0 == id && definitions[i].1.enabledContext == Some(context)
  {
    if |definitions| == 0 then []
    else
      var init := definitions[..|definitions| - 1];
      var last := definitions[|definitions| - 1];
      var rest := RequiringContext(init, context);
      assert forall i :: 0 <= i < |init| ==> init[i] == definitions[i];
      if last.1.enabledContext == Some(context) then rest + [last.0] else rest
  }

  /** Each action listed for a non-empty context is enabled exactly when that flag is set. */
  lemma RequiringContextFollowsFlag(definitions: Dict<string, ActionDefinition>, context: string,
                                    state: Dict<string, bool>, i: nat)
    requires context != "" && i < |definitions| && definitions[i].0 in RequiringContext(definitions, context)
    requires DistinctKeys(definitions)
    ensures ShouldBeEnabled(definitions[i].1, state) <==> Flag(state, context)
  {
    var j :| 0 <= j < |definitions| && definitions[j].0 == definitions[i].0 &&
      definitions[j].1.enabledContext == Some(context);
    assert i == j;
  }

  /** `ActionManager`. */
  class ActionManager {
    var actions: Dict<string, Action>
    var definitions: Dict<string, ActionDefinition>
    var contextState: Dict<string, bool>

    /**
     * The dicts have distinct keys, every created action has a definition,
     * and every created action's enabled state is what its definition
     * calls for in the current context.
     */
    ghost predicate Valid()
      reads this
    {
      DistinctKeys(actions) && DistinctKeys(definitions) && DistinctKeys(contextState) &&
      (forall i :: 0 <= i < |actions| ==> Contains(definitions, actions[i].0)) &&
      (forall i :: 0 <= i < |actions| ==>
        actions[i].1.enabled == ShouldBeEnabled(Get(definitions, actions[i].0).value, contextState))
    }

    /** `__init__`: the default definitions, loaded in order; no actions yet, no flags. */
    constructor()
      ensures Valid()
      ensures definitions == FromItems(DEFAULT_ACTIONS) && actions == [] && contextState == []
    {
      actions := [];
      definitions := [];
      contextState := [];
      new;
      var i := 0;
      while i < |DEFAULT_ACTIONS|
        invariant 0 <= i <= |DEFAULT_ACTIONS|
        invariant definitions == FromItems(DEFAULT_ACTIONS[..i]) && DistinctKeys(definitions)
        invariant actions == [] && contextState == []
      {
        var (id, definition) := DEFAULT_ACTIONS[i];
        assert DEFAULT_ACTIONS[..i + 1][..i] == DEFAULT_ACTIONS[..i];
        PutKeepsDistinct(definitions, id, definition);
        definitions := Put(definitions, id, definition);
        i := i + 1;
      }
      assert DEFAULT_ACTIONS[..|DEFAULT_ACTIONS|] == DEFAULT_ACTIONS;
    }

    /**
     * `create_action`: an unknown id is an error (ValueError); an id
     * already created gives the same action back; otherwise a new action
     * is built from the definition and stored.
     */
    method CreateAction(actionId: string, shortcutKeys: Dict<string, string>) returns (r: Option<Action>)
      requires Valid()
      modifies this
      ensures Valid()
      ensures r.None? <==> !Contains(definitions, actionId)
      ensures r.None? ==> actions == old(actions)
      ensures Contains(old(actions), actionId) ==> r == Get(old(actions), actionId) && actions == old(actions)
      ensures Contains(definitions, actionId) && !Contains(old(actions), actionId) ==>
        r == Some(NewAction(Get(definitions, actionId).value, contextState, shortcutKeys)) &&
        actions == old(actions) + [(actionId, r.value)]
      ensures Contains(actions, actionId) == Contains(definitions, actionId)
      ensures forall other :: other != actionId ==> Get(actions, other) == Get(old(actions), other)
      ensures definitions == old(definitions) && contextState == old(contextState)
    {
      if !Contains(definitions, actionId) {
        assert forall i :: 0 <= i < |actions| ==> actions[i].0 != actionId;
        return None;
      }
      if Contains(actions, actionId) {
        return Get(actions, actionId);
      }
      var definition := Get(definitions, actionId).value;
      var action := NewAction(definition, contextState, shortcutKeys);
      PutSpec(actions, actionId, action);
      actions := Put(actions, actionId, action);
      assert actions[|actions| - 1] == (actionId, action);
      return Some(action);
    }

    /** `register_action`: a known id is refused; otherwise stored under the id it is given. */
    method RegisterAction(actionId: string, definition: ActionDefinition) returns (ok: bool)
      requires Valid()
      modifies this
      ensures Valid()
      ensures ok <==> !Contains(old(definitions), actionId)
      ensures ok ==> definitions == old(definitions) + [(actionId, definition.(actionId := actionId))]
      ensures !ok ==> definitions == old(definitions)
      ensures actions == old(actions) && contextState == old(contextState)
    {
      if Contains(definitions, actionId) {
        return false;
      }
      PutSpec(definitions, actionId, definition.(actionId := actionId));
      definitions := Put(definitions, actionId, definition.(actionId := actionId));
      return true;
    }

    /** `set_action_callback` on the definition; Qt signal wiring is not part of the model. */
    method SetActionCallback(actionId: string)
      requires Valid()
      modifies this
      ensures Valid()
      ensures Contains(old(definitions), actionId) ==>
        Get(definitions, actionId) == Some(Get(old(definitions), actionId).value.(hasCallback := true))
      ensures !Contains(old(definitions), actionId) ==> definitions == old(definitions)
      ensures forall other :: other != actionId ==> Get(definitions, other) == Get(old(definitions), other)
      ensures actions == old(actions) && contextState == old(contextState)
    {
      if Contains(definitions, actionId) {
        var definition := Get(definitions, actionId).value;
        PutSpec(definitions, actionId, definition.(hasCallback := true));
        definitions := Put(definitions, actionId, definition.(hasCallback := true));
        forall i | 0 <= i < |actions|
          ensures ShouldBeEnabled(Get(definitions, actions[i].0).value, contextState) ==
            ShouldBeEnabled(Get(old(definitions), actions[i].0).value, contextState)
        {
        }
      }
    }

    /** `_update_action_states`: every created action takes the state its definition calls for. */
    method UpdateActionStates()
      requires DistinctKeys(actions) && DistinctKeys(definitions) && DistinctKeys(contextState)
      requires forall i :: 0 <= i < |actions| ==> Contains(definitions, actions[i].0)
      modifies this
      ensures Valid()
      ensures definitions == old(definitions) && contextState == old(contextState)
      ensures |actions| == |old(actions)|
      ensures forall i :: 0 <= i < |actions| ==>
        actions[i] == (old(actions[i]).0, old(actions[i]).1.(enabled := ShouldBeEnabled(Get(definitions, old(actions[i]).0).value, contextState)))
    {
      var i := 0;
      while i < |actions|
        invariant 0 <= i <= |actions| == |old(actions)|
        invariant definitions == old(definitions) && contextState == old(contextState)
        invariant forall j :: 0 <= j < |actions| ==> actions[j].0 == old(actions[j]).0
        invariant forall j :: 0 <= j < i ==>
          actions[j] == (old(actions[j]).0, old(actions[j]).1.(enabled := ShouldBeEnabled(Get(definitions, old(actions[j]).0).value, contextState)))
        invariant forall j :: i <= j < |actions| ==> actions[j] == old(actions[j])
      {
        var (id, action) := actions[i];
        var enabled := ShouldBeEnabled(Get(definitions, id).value, contextState);
        actions := actions[i := (id, action.(enabled := enabled))];
        i := i + 1;
      }
      assert forall j, k :: 0 <= j < k < |actions| ==> actions[j].0 == old(actions[j]).0 && actions[k].0 == old(actions[k]).0;
    }

    /** `update_context`: the flags are merged in and every created action is refreshed. */
    method UpdateContext(updates: Dict<string, bool>)
      requires Valid() && DistinctKeys(updates)
      modifies this
      ensures Valid()
      ensures forall k :: Get(contextState, k) == if Contains(updates, k) then Get(updates, k) else Get(old(contextState), k)
      ensures definitions == old(definitions) && Keys(actions) == Keys(old(actions))
      ensures |actions| == |old(actions)|
      ensures forall i :: 0 <= i < |actions| ==>
        actions[i] == (old(actions[i]).0, old(actions[i]).1.(enabled := ShouldBeEnabled(Get(definitions, old(actions[i]).0).value, contextState)))
    {
      UpdateSpec(contextState, updates);
      contextState := Update(contextState, updates);
      UpdateActionStates();
    }

    /** `create_all_actions`: every definition ends up with an action; existing ones are kept. */
    method CreateAllActions(shortcutKeys: Dict<string, string>) returns (created: Dict<string, Action>)
      requires Valid()
      modifies this
      ensures Valid()
      ensures created == actions
      ensures forall i :: 0 <= i < |definitions| ==> Contains(actions, definitions[i].0)
      ensures forall id :: Contains(old(actions), id) ==> Get(actions, id) == Get(old(actions), id)
      ensures definitions == old(definitions) && contextState == old(contextState)
    {
      var i := 0;
      while i < |definitions|
        invariant 0 <= i <= |definitions|
        invariant Valid() && definitions == old(definitions) && contextState == old(contextState)
        invariant forall j :: 0 <= j < i ==> Contains(actions, definitions[j].0)
        invariant forall id :: Contains(old(actions), id) ==> Get(actions, id) == Get(old(actions), id)
      {
        var id := definitions[i].0;
        if !Contains(actions, id) {
          assert Get(definitions, id).Some? by {
            assert Find(definitions, id).Some?;
          }
          var _ := CreateAction(id, shortcutKeys);
        }
        forall j | 0 <= j <= i
          ensures Contains(actions, definitions[j].0)
        {
          assert Get(actions, definitions[j].0).Some?;
        }
        i := i + 1;
      }
      return actions;
    }
  }
}
