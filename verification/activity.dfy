/**
 The main screen (MainActivity.kt). It keeps a selected maximum and minimum
 rate, lets the user change either, writes the pair of settings, and mirrors
 the result into both preference stores.
 */
module Activity {
  import opened Prefs
  import opened SystemSettings
  import opened TileService

  /** The Activity's `selectedMaxHz` / `selectedMinHz`. */
  datatype Selection = Selection(maxHz: Int32, minHz: Int32)

  /** Both fields start at 60 when the Activity is created. */
  const InitialSelection := Selection(60, 60)

  /** Every button offers one of 60, 90, 120 for each field. */
  predicate IsButtonSelection(sel: Selection) {
    IsRate(sel.maxHz) && IsRate(sel.minHz)
  }

  /**
   `syncButtonStates`: rebuilds the selection from the widget store. A fixed
   rate pins both fields to it; a variable one keeps the floor at 60 and
   recognises only 90 and 120 as ceilings.
   */
  function SyncButtonStates(widget: WidgetPrefs): (sel: Selection)
    ensures
      var hz := widget.currentHz.GetOr(60);
      && (widget.isFixedHz == Some(true) ==> sel.maxHz == hz && sel.minHz == hz)
      && (widget.isFixedHz != Some(true) ==>
            && sel.minHz == 60
            && IsRate(sel.maxHz)
            && (hz == 90 || hz == 120 ==> sel.maxHz == hz)
            && (hz != 90 && hz != 120 <==> sel == Selection(60, 60)))
  {
    var widgetIsFixed := widget.isFixedHz.GetOr(false);
    var widgetHz := widget.currentHz.GetOr(60);
    if widgetIsFixed then Selection(widgetHz, widgetHz)
    else
      match widgetHz
      case 90 => Selection(90, 60)
      case 120 => Selection(120, 60)
      case _ => Selection(60, 60)
  }

  /** `selectMaxRate` (its selection update): only the maximum changes. */
  function SelectMaxRate(sel: Selection, hz: Int32): (r: Selection)
    ensures r.maxHz == hz && r.minHz == sel.minHz
  {
    sel.(maxHz := hz)
  }

  /** `selectMinRate` (its selection update): only the minimum changes. */
  function SelectMinRate(sel: Selection, hz: Int32): (r: Selection)
    ensures r.minHz == hz && r.maxHz == sel.maxHz
  {
    sel.(minHz := hz)
  }

  /** The selection is a fixed rate exactly when both fields agree. */
  predicate IsFixed(sel: Selection) {
    sel.maxHz == sel.minHz
  }

  /**
   The commands `applyRefreshRate` builds. Its fixed branch writes the peak to
   both settings, its variable branch writes each field to its own; both come
   to writing the selected maximum and then the selected minimum.
   */
  function ActivityCommands(sel: Selection): (cmds: seq<Command>)
    ensures IsWritePair(cmds, sel.maxHz, sel.minHz)
    ensures IsFixed(sel) <==> cmds[0].hz == cmds[1].hz
  {
    if IsFixed(sel) then WritePair(sel.maxHz, sel.maxHz)
    else WritePair(sel.maxHz, sel.minHz)
  }

  /** The Activity can ask for a floor above the ceiling: max 60 with min 120. */
  lemma ActivityMayInvertRange()
    ensures !MinNotAbovePeak(ActivityCommands(Selection(60, 120)))
  {
  }

  /**
   `getTileStateFromAppHz`: the tile state whose configuration matches the
   Activity's (peak, min, fixed); fixed states ignore the minimum. No match,
   such as a minimum above the peak, falls back to 0.
   */
  function TileStateFromAppHz(peakHz: Int32, minHz: Int32, isFixed: bool): (r: int)
    ensures IsState(r)
    ensures r != 0 ==> Describes(r, peakHz, minHz, isFixed)
    ensures forall t: Int32 :: 0 < t < StateCount && Describes(t, peakHz, minHz, isFixed) ==> r == t
  {
    if peakHz == 60 && isFixed then 0
    else if peakHz == 90 && !isFixed && minHz == 60 then 1
    else if peakHz == 120 && !isFixed && minHz == 60 then 2
    else if peakHz == 90 && isFixed then 3
    else if peakHz == 120 && !isFixed && minHz == 90 then 4
    else if peakHz == 120 && isFixed then 5
    else 0
  }

  /** The Activity's matching rule: same peak and flag, and same minimum unless fixed. */
  predicate Describes(state: Int32, peakHz: Int32, minHz: Int32, isFixed: bool) {
    var t := RefreshRateSettings(state);
    t.peakHz == peakHz && t.isFixed == isFixed && (isFixed || t.minHz == minHz)
  }

  /** The Activity's encoder inverts the tile's decoder on all six states, state 4 included. */
  lemma AppEncodingRoundTrip(s: Int32)
    requires IsState(s)
    ensures
      var t := RefreshRateSettings(s);
      TileStateFromAppHz(t.peakHz, t.minHz, t.isFixed) == s
  {
  }

  /**
   A selected minimum above the maximum is not fixed, matches no state, and is
   stored as state 0 (60 Hz fixed).
   */
  lemma InvertedRangeEncodesAsZero(sel: Selection)
    requires sel.minHz > sel.maxHz
    ensures TileStateFromAppHz(sel.maxHz, sel.minHz, IsFixed(sel)) == 0
  {
  }

  /**
   `saveAppState`: the widget store records (peak, fixed), the tile store the
   encoded state; nothing else is written.
   */
  function SaveAppState(peakHz: Int32, minHz: Int32, isFixed: bool, s: Stores): (r: Stores)
    ensures r.widget == WidgetPrefs(Some(peakHz), Some(isFixed))
    ensures r.tile.currentHz.Some? && IsState(r.tile.currentHz.value)
    ensures r.tile.currentHz.value == TileStateFromAppHz(peakHz, minHz, isFixed)
  {
    var tileState := TileStateFromAppHz(peakHz, minHz, isFixed);
    Stores(WidgetPrefs(Some(peakHz), Some(isFixed)), TilePrefs(Some(tileState)))
  }

  /**
   `applyRefreshRate`: the writes run only with root, but the stores are
   updated either way.
   */
  function ApplyRefreshRate(sel: Selection, rooted: bool, s: Stores): (r: (Stores, seq<Command>))
    ensures rooted ==> IsWritePair(r.1, sel.maxHz, sel.minHz)
    ensures !rooted ==> r.1 == []
    ensures r.0.widget == WidgetPrefs(Some(sel.maxHz), Some(IsFixed(sel)))
    ensures r.0.tile == TilePrefs(Some(TileStateFromAppHz(sel.maxHz, sel.minHz, IsFixed(sel))))
  {
    var cmds := ActivityCommands(sel);
    (SaveAppState(sel.maxHz, sel.minHz, IsFixed(sel), s), if rooted then cmds else [])
  }

  /** A maximum button: update the selection, then apply it. */
  function OnSelectMax(sel: Selection, hz: Int32, rooted: bool, s: Stores): (r: (Selection, Stores, seq<Command>))
    ensures r.0 == sel.(maxHz := hz)
    ensures rooted ==> IsWritePair(r.2, hz, sel.minHz)
    ensures r.1.widget == WidgetPrefs(Some(hz), Some(hz == sel.minHz))
  {
    var next := SelectMaxRate(sel, hz);
    var (stores, cmds) := ApplyRefreshRate(next, rooted, s);
    (next, stores, cmds)
  }

  /** A minimum button: update the selection, then apply it. */
  function OnSelectMin(sel: Selection, hz: Int32, rooted: bool, s: Stores): (r: (Selection, Stores, seq<Command>))
    ensures r.0 == sel.(minHz := hz)
    ensures rooted ==> IsWritePair(r.2, sel.maxHz, hz)
    ensures r.1.widget == WidgetPrefs(Some(sel.maxHz), Some(sel.maxHz == hz))
  {
    var next := SelectMinRate(sel, hz);
    var (stores, cmds) := ApplyRefreshRate(next, rooted, s);
    (next, stores, cmds)
  }
}
