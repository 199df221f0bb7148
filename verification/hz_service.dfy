/**
 The foreground service started by the widget and by the tile
 (HzChangerService.kt). It reads the intent's extras, decides whether the rate
 is fixed, and issues the pair of settings writes. It never writes a
 preference store.
 */
module HzService {
  import opened Prefs
  import opened SystemSettings

  /** Extras of the intent that starts the service; an absent extra is `None`. */
  datatype Intent = Intent(
    hz: Option<Int32>,
    minHz: Option<Int32>,
    isFixed: Option<bool>,
    toggleFix: Option<bool>,
    isFromWidget: Option<bool>,
    isFromTile: Option<bool>)

  /** How the service may reach the privileged settings. */
  datatype Access = Root | ShizukuOnly | NoAccess

  /** Rate used when the intent carries no `hz` extra. */
  const DefaultHz: Int32 := 60

  /** Floor of the adaptive range whenever the rate is not fixed. */
  const VariableMinHz: Int32 := 60

  /**
   The writes for rate `hz`: fixed pins min to the peak, otherwise min falls
   back to 60 whatever range was asked for.
   */
  function SetRefreshRate(hz: Int32, isFixed: bool): (cmds: seq<Command>)
    ensures |cmds| == 2 && cmds[0] == Put(PeakRefreshRate, hz) && cmds[1].key == MinRefreshRate
    ensures isFixed ==> IsWritePair(cmds, hz, hz)
    ensures !isFixed ==> IsWritePair(cmds, hz, 60)
    ensures hz >= 60 ==> MinNotAbovePeak(cmds)
  {
    if isFixed then WritePair(hz, hz) else WritePair(hz, VariableMinHz)
  }

  /**
   Whether the rate is fixed: an intent flagged `toggle_fix` says so itself;
   any other intent defers to the widget store.
   */
  function ResolveFixed(intent: Intent, widget: WidgetPrefs): (fixed: bool)
    ensures intent.toggleFix == Some(true) ==> fixed == intent.isFixed.GetOr(false)
    ensures intent.toggleFix != Some(true) ==> fixed == (widget.isFixedHz == Some(true))
  {
    if intent.toggleFix.GetOr(false) then intent.isFixed.GetOr(false)
    else widget.isFixedHz.GetOr(false)
  }

  /** The writes `onStartCommand` asks for; a null intent asks for none. */
  function RequestedCommands(intent: Option<Intent>, widget: WidgetPrefs): (cmds: seq<Command>)
    ensures intent.None? ==> cmds == []
    ensures intent.Some? ==>
      var hz := intent.value.hz.GetOr(DefaultHz);
      && |cmds| == 2
      && cmds[0] == Put(PeakRefreshRate, hz)
      && cmds[1] == Put(MinRefreshRate, if ResolveFixed(intent.value, widget) then hz else 60)
  {
    match intent
    case None => []
    case Some(i) => SetRefreshRate(i.hz.GetOr(DefaultHz), ResolveFixed(i, widget))
  }

  /**
   The execution step of `setRefreshRate`: only the root path runs the
   commands; the Shizuku path is an unimplemented stub and runs nothing.
   */
  function ExecutedCommands(intent: Option<Intent>, widget: WidgetPrefs, access: Access): (run: seq<Command>)
    ensures access == Root ==> run == RequestedCommands(intent, widget)
    ensures access != Root ==> run == []
    ensures intent.None? ==> run == []
  {
    if access == Root then RequestedCommands(intent, widget) else []
  }

  /** The `min_hz` extra never influences what the service writes. */
  lemma MinHzExtraIgnored(intent: Intent, widget: WidgetPrefs, other: Option<Int32>)
    ensures RequestedCommands(Some(intent.(minHz := other)), widget) == RequestedCommands(Some(intent), widget)
  {
  }

  /** Every requested pair is a well-formed range once the rate is at least 60. */
  lemma RequestedRangeWellFormed(intent: Intent, widget: WidgetPrefs)
    requires intent.hz.GetOr(DefaultHz) >= 60
    ensures MinNotAbovePeak(RequestedCommands(Some(intent), widget))
  {
  }
}
