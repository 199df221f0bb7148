/**
 How the three control surfaces stay (or fail to stay) in step through the two
 shared stores. Every handler is treated as one atomic transition; a service
 start is assumed to run right after the handler that sent it, reading the
 widget store as that handler left it.
 */
module SyncProtocol {
  import opened Prefs
  import opened SystemSettings
  import opened HzService
  import opened TileService
  import Widget
  import opened Activity

  /** What the surfaces ever write: a tile state 0..5 and a widget rate of 60, 90 or 120. */
  predicate ValidStores(s: Stores) {
    && (s.tile.currentHz.Some? ==> IsState(s.tile.currentHz.value))
    && (s.widget.currentHz.Some? ==> IsRate(s.widget.currentHz.value))
  }

  /** The whole app: the two stores and the Activity's selection. */
  datatype AppState = AppState(stores: Stores, selection: Selection)

  predicate ValidApp(a: AppState) {
    ValidStores(a.stores) && IsButtonSelection(a.selection)
  }

  /** One user-visible event on one surface. */
  datatype Event =
    | TileClick(hasPermission: bool)
    | TileListen
    | WidgetReceive(action: Widget.Action)
    | ActivitySelectMax(hz: Int32, rooted: bool)
    | ActivitySelectMin(hz: Int32, rooted: bool)
    | ActivitySync

  /** The Activity's buttons only offer 60, 90 and 120. */
  predicate ValidEvent(e: Event) {
    match e
    case ActivitySelectMax(hz, _) => IsRate(hz)
    case ActivitySelectMin(hz, _) => IsRate(hz)
    case _ => true
  }

  /** Runs the service, if the handler started it, against the stores the handler left. */
  function RunService(intent: Option<Intent>, s: Stores, access: Access): seq<Command> {
    ExecutedCommands(intent, s.widget, access)
  }

  /** One event: the new app state and the settings writes that reach the system. */
  function Step(a: AppState, e: Event, access: Access): (AppState, seq<Command>) {
    match e
    case TileClick(hasPermission) =>
      var (s, intent) := OnClick(hasPermission, a.stores);
      (a.(stores := s), RunService(intent, s, access))
    case TileListen =>
      (a.(stores := SyncWithWidget(a.stores)), [])
    case WidgetReceive(action) =>
      var (s, intent) := Widget.OnReceive(action, a.stores);
      (a.(stores := s), RunService(intent, s, access))
    case ActivitySelectMax(hz, rooted) =>
      var (sel, s, cmds) := OnSelectMax(a.selection, hz, rooted, a.stores);
      (AppState(s, sel), cmds)
    case ActivitySelectMin(hz, rooted) =>
      var (sel, s, cmds) := OnSelectMin(a.selection, hz, rooted, a.stores);
      (AppState(s, sel), cmds)
    case ActivitySync =>
      (a.(selection := SyncButtonStates(a.stores.widget)), [])
  }

  /** A fresh install: no key written yet, and the Activity's fields at 60. */
  lemma InitialValid()
    ensures ValidApp(AppState(EmptyStores, InitialSelection))
  {
  }

  /**
   Creating the Activity rebuilds the selection from the widget store at once;
   from valid stores the rebuilt selection is made of button values.
   */
  lemma ActivityCreatedValid(s: Stores)
    requires ValidStores(s)
    ensures ValidApp(AppState(s, SyncButtonStates(s.widget)))
  {
  }

  /** The tile's click and its sync on listening keep the app valid. */
  lemma TileEventsPreserveValid(a: AppState, e: Event, access: Access)
    requires ValidApp(a) && (e.TileClick? || e.TileListen?)
    ensures ValidApp(Step(a, e, access).0)
    ensures Step(a, e, access).0.selection == a.selection
  {
  }

  /** The widget's actions keep the app valid. */
  lemma WidgetEventsPreserveValid(a: AppState, e: Event, access: Access)
    requires ValidApp(a) && e.WidgetReceive?
    ensures ValidApp(Step(a, e, access).0)
  {
  }

  /** The Activity's buttons and its sync from the widget store keep the app valid. */
  lemma ActivityEventsPreserveValid(a: AppState, e: Event, access: Access)
    requires ValidApp(a) && ValidEvent(e)
    requires e.ActivitySelectMax? || e.ActivitySelectMin? || e.ActivitySync?
    ensures ValidApp(Step(a, e, access).0)
  {
  }

  /** Every surface keeps the stores within what the others can read back. */
  lemma StepPreservesValid(a: AppState, e: Event, access: Access)
    requires ValidApp(a) && ValidEvent(e)
    ensures ValidApp(Step(a, e, access).0)
  {
    if e.TileClick? || e.TileListen? {
      TileEventsPreserveValid(a, e, access);
    } else if e.WidgetReceive? {
      WidgetEventsPreserveValid(a, e, access);
    } else {
      ActivityEventsPreserveValid(a, e, access);
    }
  }

  /** Writes from the tile and the widget always ask for a floor not above the ceiling. */
  lemma TileAndWidgetWritesWellFormed(a: AppState, e: Event, access: Access)
    requires ValidApp(a)
    requires e.TileClick? || e.WidgetReceive?
    ensures
      var cmds := Step(a, e, access).1;
      cmds == [] || (|cmds| == 2 && IsRate(cmds[0].hz) && MinNotAbovePeak(cmds))
  {
  }

  /** The tile state's configuration is exactly the pair of writes. */
  predicate TileAgrees(tileState: Int32, cmds: seq<Command>) {
    var t := RefreshRateSettings(tileState);
    IsWritePair(cmds, t.peakHz, t.minHz)
  }

  /**
   After a tile click, the service writes what the new tile state announces,
   except for state 4: its 90 Hz floor is replaced by 60.
   */
  lemma TileClickAgreesUnlessFour(s: Stores)
    ensures
      var (t, intent) := OnClick(true, s);
      var next := t.tile.currentHz.value;
      TileAgrees(next, RequestedCommands(intent, t.widget)) <==> next != 4
    ensures
      var (t, intent) := OnClick(true, s);
      t.tile.currentHz.value == 4 ==> RequestedCommands(intent, t.widget) == WritePair(120, 60)
  {
  }

  /**
   After the widget's cycle button, the tile state is encoded as if the rate
   were variable: 60 Hz (0), 60-90 Hz (1) or 60-120 Hz (2). The service fixes
   the rate whenever the widget is fixed, so the two disagree exactly when the
   widget is fixed and the new rate is 90 or 120.
   */
  lemma WidgetCycleAgreesUnlessFixed(s: Stores)
    ensures
      var (t, intent) := Widget.OnCycleHz(s);
      var next := t.widget.currentHz.value;
      var agrees := TileAgrees(t.tile.currentHz.value, RequestedCommands(Some(intent), t.widget));
      agrees <==> s.widget.isFixedHz != Some(true) || next == 60
  {
  }

  /** After the widget's fix toggle, the tile announces exactly what the service writes. */
  lemma WidgetToggleAgrees(s: Stores)
    requires ValidStores(s)
    ensures
      var (t, intent) := Widget.OnToggleFix(s);
      TileAgrees(t.tile.currentHz.value, RequestedCommands(Some(intent), t.widget))
  {
  }

  /**
   After an Activity button (with root), the tile announces what was written
   exactly when the selected floor is not above the selected ceiling.
   */
  lemma ActivityAgreesUnlessInverted(sel: Selection, s: Stores)
    requires IsButtonSelection(sel)
    ensures
      var (t, cmds) := ApplyRefreshRate(sel, true, s);
      TileAgrees(t.tile.currentHz.value, cmds) <==> sel.minHz <= sel.maxHz
  {
  }

  /** Without root the Activity writes nothing, yet both stores claim the new selection. */
  lemma ActivityStoresWithoutRoot(sel: Selection, s: Stores)
    ensures
      var (t, cmds) := ApplyRefreshRate(sel, false, s);
      cmds == [] && t.widget.currentHz == Some(sel.maxHz) && t.widget.isFixedHz == Some(IsFixed(sel))
  {
  }

  /**
   Saving a selection and syncing the buttons from the widget store gives the
   selection back exactly when it is fixed or a 60 Hz floor under 90 or 120.
   */
  lemma ActivitySaveThenSync(sel: Selection, rooted: bool, s: Stores)
    ensures
      var restored := SyncButtonStates(ApplyRefreshRate(sel, rooted, s).0.widget) == sel;
      restored <==> IsFixed(sel) || (sel.minHz == 60 && (sel.maxHz == 90 || sel.maxHz == 120))
  {
  }

  /** The Activity stores 90-120 as tile state 4; the tile's next sync turns it into 2. */
  lemma ActivityRangeLostByTileSync(s: Stores)
    ensures ApplyRefreshRate(Selection(120, 90), true, s).0.tile.currentHz == Some(4)
    ensures SyncWithWidget(ApplyRefreshRate(Selection(120, 90), true, s).0).tile.currentHz == Some(2)
  {
  }

  /** A tile click followed by the tile re-reading the widget store (the panel is reopened). */
  function ClickAndReopen(s: Stores): Stores {
    SyncWithWidget(OnClick(true, s).0)
  }

  function ClickAndReopenTimes(s: Stores, n: nat): Stores {
    if n == 0 then s else ClickAndReopen(ClickAndReopenTimes(s, n - 1))
  }

  /** The tile state a click-and-reopen leads to, from the state before it. */
  function ReopenedState(t: Int32): int {
    var next := RefreshRateSettings(NextState(t));
    TileStateFromWidgetHz(next.peakHz, next.isFixed)
  }

  /** Click-and-reopen depends on the tile state alone and never lands on 4. */
  lemma ClickAndReopenTile(s: Stores)
    ensures ClickAndReopen(s).tile == TilePrefs(Some(ReopenedState(CurrentState(s.tile))))
    ensures ReopenedState(CurrentState(s.tile)) != 4
  {
  }

  /** How many click-and-reopen rounds a tile state is from the pair {2, 3}. */
  function RoundsToTrap(t: int): nat {
    if t == 2 || t == 3 then 0
    else if t == 1 then 1
    else if t == 0 then 2
    else if t == 5 then 3
    else 4
  }

  /** Each round brings any stored state one round closer to {2, 3}, and {2, 3} is never left. */
  lemma ReopenedStateApproachesTrap(t: Int32)
    ensures RoundsToTrap(ReopenedState(t)) <= if RoundsToTrap(t) == 0 then 0 else RoundsToTrap(t) - 1
  {
  }

  /**
   With the panel reopened between clicks, from any stored tile state, the
   state seen after each reopen is 60-120 Hz (2) or 90 Hz fixed (3) once four
   rounds have passed.
   */
  lemma {:induction false} ClickAndReopenTrapped(s: Stores, n: nat)
    ensures RoundsToTrap(CurrentState(ClickAndReopenTimes(s, n).tile)) <= if n >= 4 then 0 else 4 - n
    ensures n >= 4 ==> CurrentState(ClickAndReopenTimes(s, n).tile) in {2, 3}
  {
    if n > 0 {
      var prev := ClickAndReopenTimes(s, n - 1);
      ClickAndReopenTrapped(s, n - 1);
      ClickAndReopenTile(prev);
      ReopenedStateApproachesTrap(CurrentState(prev.tile));
    }
  }

  /** Inside the trap each round swaps 2 and 3. */
  lemma TrapAlternates()
    ensures ReopenedState(2) == 3 && ReopenedState(3) == 2
  {
  }

  /**
   Once trapped, the state seen after each reopen alternates: every round turns
   2 into 3 and 3 into 2, so 60 Hz fixed, 60-90 Hz and 120 Hz fixed are never
   reached again.
   */
  lemma {:induction false} ClickAndReopenAlternates(s: Stores, n: nat)
    requires n >= 4
    ensures
      var before := CurrentState(ClickAndReopenTimes(s, n).tile);
      && before in {2, 3}
      && CurrentState(ClickAndReopenTimes(s, n + 1).tile) == 5 - before
  {
    ClickAndReopenTrapped(s, n);
    ClickAndReopenTile(ClickAndReopenTimes(s, n));
    TrapAlternates();
  }

  /**
   A click from state 3 passes through state 4: the tile shows 90-120 Hz while
   the service writes 120/60, until the next reopen turns the state into 2.
   */
  lemma ClickFromThreeShowsFour(s: Stores)
    requires CurrentState(s.tile) == 3
    ensures
      var (t, intent) := OnClick(true, s);
      && t.tile.currentHz == Some(4)
      && HzStateLabel(4) == Range90To120
      && RequestedCommands(intent, t.widget) == WritePair(120, 60)
      && SyncWithWidget(t).tile.currentHz == Some(2)
  {
  }
}
