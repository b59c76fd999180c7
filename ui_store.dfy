/**
 * The persisted user-interface settings: theme, sidebar, current view,
 * editor mode, the two grouping thresholds, the sidebar tab, the settings
 * dialog and the group tag under the mouse.
 */
module UiStore {
  import opened Results
  import opened JsNumbers

  datatype View = EditorView | GraphView | SearchView | TemporalView | SplitView
  datatype EditorMode = EditMode | PreviewMode | SplitMode
  datatype SidebarTab = NotesTab | GroupingsTab

  /** A snapshot of every field of the store. */
  datatype UiState = UiState(
    darkMode: bool,
    sidebarOpen: bool,
    currentView: View,
    editorPreviewMode: EditorMode,
    groupingMinSize: int,
    mapColorThreshold: int,
    sidebarTab: SidebarTab,
    settingsOpen: bool,
    hoveredGroupTag: Option<string>)

  /** What is written to local storage: every field but the hovered group tag. */
  datatype PersistedUi = PersistedUi(
    darkMode: bool,
    sidebarOpen: bool,
    currentView: View,
    editorPreviewMode: EditorMode,
    groupingMinSize: int,
    mapColorThreshold: int,
    sidebarTab: SidebarTab,
    settingsOpen: bool)

  const DefaultGroupingMinSize := 5
  const DefaultMapColorThreshold := 10

  /** The state the store starts in before anything is restored. */
  const Defaults := UiState(false, true, EditorView, SplitMode, DefaultGroupingMinSize,
                            DefaultMapColorThreshold, NotesTab, false, None)

  /** The thresholds are in range. */
  predicate ValidState(s: UiState) {
    s.groupingMinSize >= 1 && s.mapColorThreshold >= 2
  }

  /** `Math.max(floor, Math.floor(value) || floor)` as an integer. */
  function ClampAtLeast(value: Num, floor: int): int {
    var r := Max(Finite(floor as real), Or(Floor(value), Finite(floor as real)));
    if r.Finite? then r.value.Floor else floor
  }

  /**
   * The clamp keeps whole values at or above the floor, rounds other values
   * down, and maps NaN, zero and everything rounding below the floor to the floor.
   */
  lemma ClampAtLeastSpec(value: Num, floor: int)
    requires floor >= 1
    ensures ClampAtLeast(value, floor) >= floor
    ensures value.Finite? && value.value.Floor >= floor ==> ClampAtLeast(value, floor) == value.value.Floor
    ensures value.NaN? || value.value.Floor <= floor ==> ClampAtLeast(value, floor) == floor
  {
    if value.Finite? {
      assert (value.value.Floor as real).Floor == value.value.Floor;
    }
  }

  /** Storing a value that is already a valid threshold keeps it. */
  lemma ClampAtLeastIdempotent(value: Num, floor: int)
    requires floor >= 1
    ensures ClampAtLeast(Finite(ClampAtLeast(value, floor) as real), floor) == ClampAtLeast(value, floor)
  {
    ClampAtLeastSpec(value, floor);
    var c := ClampAtLeast(value, floor);
    assert (c as real).Floor == c;
  }

  /** `partialize`: drop the hovered group tag. */
  function Partialize(s: UiState): (r: PersistedUi) {
    PersistedUi(s.darkMode, s.sidebarOpen, s.currentView, s.editorPreviewMode, s.groupingMinSize,
                s.mapColorThreshold, s.sidebarTab, s.settingsOpen)
  }

  /** The state restored from storage, with the hovered tag it had before hydration. */
  function Restore(p: PersistedUi, hovered: Option<string>): UiState {
    UiState(p.darkMode, p.sidebarOpen, p.currentView, p.editorPreviewMode, p.groupingMinSize,
            p.mapColorThreshold, p.sidebarTab, p.settingsOpen, hovered)
  }

  /** Everything but the hovered tag survives persistence, and the hovered tag never reaches storage. */
  lemma PartializeSpec(s: UiState, t: Option<string>)
    ensures Restore(Partialize(s), s.hoveredGroupTag) == s
    ensures Partialize(s.(hoveredGroupTag := t)) == Partialize(s)
  {
  }

  // The transitions, one per setter

  function ToggleDarkModeStep(s: UiState): UiState { s.(darkMode := !s.darkMode) }
  function ToggleSidebarStep(s: UiState): UiState { s.(sidebarOpen := !s.sidebarOpen) }
  function SetViewStep(s: UiState, view: View): UiState { s.(currentView := view) }
  function SetEditorPreviewModeStep(s: UiState, mode: EditorMode): UiState { s.(editorPreviewMode := mode) }
  function SetGroupingMinSizeStep(s: UiState, value: Num): UiState { s.(groupingMinSize := ClampAtLeast(value, 1)) }
  function SetMapColorThresholdStep(s: UiState, value: Num): UiState { s.(mapColorThreshold := ClampAtLeast(value, 2)) }
  function SetSidebarTabStep(s: UiState, tab: SidebarTab): UiState { s.(sidebarTab := tab) }
  function SetHoveredGroupTagStep(s: UiState, tag: Option<string>): UiState { s.(hoveredGroupTag := tag) }
  function OpenSettingsStep(s: UiState): UiState { s.(settingsOpen := true) }
  function CloseSettingsStep(s: UiState): UiState { s.(settingsOpen := false) }

  /** Toggling the sidebar or the theme twice restores the state. */
  lemma TogglesAreInvolutions(s: UiState)
    ensures ToggleSidebarStep(ToggleSidebarStep(s)) == s
    ensures ToggleDarkModeStep(ToggleDarkModeStep(s)) == s
  {
  }

  /** Every setter keeps the thresholds in range. */
  lemma StepsKeepValid(s: UiState, value: Num, view: View, mode: EditorMode, tab: SidebarTab, tag: Option<string>)
    requires ValidState(s)
    ensures ValidState(ToggleDarkModeStep(s)) && ValidState(ToggleSidebarStep(s))
    ensures ValidState(SetViewStep(s, view)) && ValidState(SetEditorPreviewModeStep(s, mode))
    ensures ValidState(SetGroupingMinSizeStep(s, value)) && ValidState(SetMapColorThresholdStep(s, value))
    ensures ValidState(SetSidebarTabStep(s, tab)) && ValidState(SetHoveredGroupTagStep(s, tag))
    ensures ValidState(OpenSettingsStep(s)) && ValidState(CloseSettingsStep(s))
  {
    ClampAtLeastSpec(value, 1);
    ClampAtLeastSpec(value, 2);
  }

  /** Hovering over a group tag is never persisted; every other setter changes only persisted fields. */
  lemma HoverIsNotPersisted(s: UiState, tag: Option<string>)
    ensures Partialize(SetHoveredGroupTagStep(s, tag)) == Partialize(s)
  {
    PartializeSpec(s, tag);
  }

  class Store {
    var darkMode: bool
    var sidebarOpen: bool
    var currentView: View
    var editorPreviewMode: EditorMode
    var groupingMinSize: int
    var mapColorThreshold: int
    var sidebarTab: SidebarTab
    var settingsOpen: bool
    var hoveredGroupTag: Option<string>

    function State(): UiState
      reads this
    {
      UiState(darkMode, sidebarOpen, currentView, editorPreviewMode, groupingMinSize,
              mapColorThreshold, sidebarTab, settingsOpen, hoveredGroupTag)
    }

    ghost predicate Valid()
      reads this
    {
      ValidState(State())
    }

    /** The store before hydration holds the defaults: grouping at 5 notes, colouring from 10. */
    constructor ()
      ensures Valid() && State() == Defaults
      ensures groupingMinSize == 5 && mapColorThreshold == 10
    {
      darkMode, sidebarOpen, currentView, editorPreviewMode := false, true, EditorView, SplitMode;
      groupingMinSize, mapColorThreshold := DefaultGroupingMinSize, DefaultMapColorThreshold;
      sidebarTab, settingsOpen, hoveredGroupTag := NotesTab, false, None;
    }

    /** Hydration from storage: the persisted fields come back, the hovered tag stays. */
    method Rehydrate(p: PersistedUi)
      requires p.groupingMinSize >= 1 && p.mapColorThreshold >= 2
      modifies this
      ensures Valid() && State() == Restore(p, old(hoveredGroupTag))
      ensures Partialize(State()) == p
    {
      darkMode, sidebarOpen, currentView, editorPreviewMode := p.darkMode, p.sidebarOpen, p.currentView, p.editorPreviewMode;
      groupingMinSize, mapColorThreshold := p.groupingMinSize, p.mapColorThreshold;
      sidebarTab, settingsOpen := p.sidebarTab, p.settingsOpen;
    }

    /** `toggleDarkMode()` (the class on the document element is not modelled). */
    method ToggleDarkMode()
      requires Valid()
      modifies this
      ensures Valid() && State() == ToggleDarkModeStep(old(State()))
    {
      darkMode := !darkMode;
    }

    method ToggleSidebar()
      requires Valid()
      modifies this
      ensures Valid() && State() == ToggleSidebarStep(old(State()))
    {
      sidebarOpen := !sidebarOpen;
    }

    method SetView(view: View)
      requires Valid()
      modifies this
      ensures Valid() && State() == SetViewStep(old(State()), view)
    {
      currentView := view;
    }

    method SetEditorPreviewMode(mode: EditorMode)
      requires Valid()
      modifies this
      ensures Valid() && State() == SetEditorPreviewModeStep(old(State()), mode)
    {
      editorPreviewMode := mode;
    }

    method SetGroupingMinSize(value: Num)
      requires Valid()
      modifies this
      ensures Valid() && State() == SetGroupingMinSizeStep(old(State()), value)
      ensures groupingMinSize >= 1
    {
      ClampAtLeastSpec(value, 1);
      groupingMinSize := ClampAtLeast(value, 1);
    }

    method SetMapColorThreshold(value: Num)
      requires Valid()
      modifies this
      ensures Valid() && State() == SetMapColorThresholdStep(old(State()), value)
      ensures mapColorThreshold >= 2
    {
      ClampAtLeastSpec(value, 2);
      mapColorThreshold := ClampAtLeast(value, 2);
    }

    method SetSidebarTab(tab: SidebarTab)
      requires Valid()
      modifies this
      ensures Valid() && State() == SetSidebarTabStep(old(State()), tab)
    {
      sidebarTab := tab;
    }

    method SetHoveredGroupTag(tag: Option<string>)
      requires Valid()
      modifies this
      ensures Valid() && State() == SetHoveredGroupTagStep(old(State()), tag)
      ensures Partialize(State()) == Partialize(old(State()))
    {
      hoveredGroupTag := tag;
    }

    method OpenSettings()
      requires Valid()
      modifies this
      ensures Valid() && State() == OpenSettingsStep(old(State()))
    {
      settingsOpen := true;
    }

    method CloseSettings()
      requires Valid()
      modifies this
      ensures Valid() && State() == CloseSettingsStep(old(State()))
    {
      settingsOpen := false;
    }
  }
}
