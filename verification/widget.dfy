/**
 The home-screen widget (HzChangerWidget.kt). One button cycles the rate
 60 -> 90 -> 120 -> 60, the other toggles "fixed"; each handler rewrites the
 widget store, re-encodes the tile state and starts the service.
 */
module Widget {
  import opened Prefs
  import opened HzService
  import opened TileService

  /** Intent actions `onReceive` reacts to; any other action only redraws. */
  datatype Action = CycleHz | ToggleFix | OtherAction

  /** Rate the widget reads when it never stored one. */
  const WidgetDefaultHz: Int32 := 60

  /** The rate after a press of the cycle button; anything unexpected restarts at 60. */
  function NextHz(hz: Int32): (r: Int32)
    ensures IsRate(r)
    ensures hz == 60 || hz == 90 ==> r == hz + 30
    ensures !(hz == 60 || hz == 90) ==> r == 60
  {
    match hz
    case 60 => 90
    case 90 => 120
    case _ => 60
  }

  /** `n` presses of the cycle button. */
  function NextHzTimes(hz: Int32, n: nat): Int32 {
    if n == 0 then hz else NextHz(NextHzTimes(hz, n - 1))
  }

  /** Position of a rate in the widget's cycle: 60, 90, 120. */
  function RateIndex(hz: Int32): int
    requires IsRate(hz)
  {
    (hz - 60) / 30
  }

  /** From a rate, `n` presses advance its position in the cycle by `n` modulo 3. */
  lemma {:induction false} NextHzTimesAdvances(hz: Int32, n: nat)
    requires IsRate(hz)
    ensures IsRate(NextHzTimes(hz, n))
    ensures RateIndex(NextHzTimes(hz, n)) == (RateIndex(hz) + n) % 3
  {
    if n > 0 {
      NextHzTimesAdvances(hz, n - 1);
      var k := RateIndex(hz) + n - 1;
      assert k == 3 * (k / 3) + k % 3;
      if k % 3 == 2 {
        assert k + 1 == 3 * (k / 3 + 1);
      } else {
        assert k + 1 == 3 * (k / 3) + (k % 3 + 1);
      }
    }
  }

  /** Any multiple of three presses brings a rate back to itself. */
  lemma CycleHzReturnsAfterMultipleOfThree(hz: Int32, n: nat)
    requires IsRate(hz) && n % 3 == 0
    ensures NextHzTimes(hz, n) == hz
  {
    NextHzTimesAdvances(hz, n);
    var q := n / 3;
    assert RateIndex(hz) + n == 3 * q + RateIndex(hz);
  }

  /**
   The widget's own (Hz, fixed) encoder: a second copy of the tile's, with the
   same repeated guard, so it also never yields state 4 and agrees with the
   tile's encoder on every input.
   */
  function TileStateFromHz(hz: Int32, isFixed: bool): (r: int)
    ensures IsState(r) && r != 4
    ensures r == TileStateFromWidgetHz(hz, isFixed)
  {
    if hz == 60 && isFixed then 0
    else if hz == 90 && !isFixed then 1
    else if hz == 120 && !isFixed then 2
    else if hz == 90 && isFixed then 3
    else if hz == 120 && !isFixed then 4
    else if hz == 120 && isFixed then 5
    else 0
  }

  /** `saveTileState`: a missing fixed flag counts as variable; the widget store is untouched. */
  function SaveTileState(hz: Int32, isFixed: Option<bool>, s: Stores): (r: Stores)
    ensures r.widget == s.widget
    ensures r.tile.currentHz.Some? && IsState(r.tile.currentHz.value) && r.tile.currentHz.value != 4
    ensures isFixed != Some(true) ==> r.tile.currentHz.value in {0, 1, 2}
    ensures r.tile.currentHz.value == TileStateFromHz(hz, isFixed.GetOr(false))
  {
    s.(tile := TilePrefs(Some(TileStateFromHz(hz, isFixed.GetOr(false)))))
  }

  /**
   `ACTION_CYCLE_HZ`: advances the widget rate, leaves the fixed flag alone,
   and encodes the tile state as if the rate were variable.
   */
  function OnCycleHz(s: Stores): (r: (Stores, Intent))
    ensures
      var next := NextHz(s.widget.currentHz.GetOr(WidgetDefaultHz));
      && r.0.widget == s.widget.(currentHz := Some(next))
      && r.0.tile == TilePrefs(Some(TileStateFromHz(next, false)))
      && r.1.hz == Some(next) && r.1.toggleFix.None?
    ensures r.0.tile.currentHz.Some? && r.0.tile.currentHz.value in {0, 1, 2}
  {
    var next := NextHz(s.widget.currentHz.GetOr(WidgetDefaultHz));
    var stored := s.(widget := s.widget.(currentHz := Some(next)));
    (SaveTileState(next, None, stored), Intent(Some(next), None, None, None, Some(true), None))
  }

  /**
   `ACTION_TOGGLE_FIX`: negates the fixed flag, leaves the rate alone, and
   encodes the tile state from the rate and the new flag.
   */
  function OnToggleFix(s: Stores): (r: (Stores, Intent))
    ensures
      var fixed := !s.widget.isFixedHz.GetOr(false);
      var hz := s.widget.currentHz.GetOr(WidgetDefaultHz);
      && r.0.widget == s.widget.(isFixedHz := Some(fixed))
      && r.0.tile == TilePrefs(Some(TileStateFromHz(hz, fixed)))
      && r.1.hz == Some(hz) && r.1.toggleFix == Some(true) && r.1.isFixed == Some(fixed)
  {
    var fixed := !s.widget.isFixedHz.GetOr(false);
    var stored := s.(widget := s.widget.(isFixedHz := Some(fixed)));
    var hz := stored.widget.currentHz.GetOr(WidgetDefaultHz);
    (SaveTileState(hz, Some(fixed), stored), Intent(Some(hz), None, Some(fixed), Some(true), Some(true), None))
  }

  /** `onReceive`: only the two widget actions change a store or start the service. */
  function OnReceive(action: Action, s: Stores): (r: (Stores, Option<Intent>))
    ensures action == OtherAction ==> r == (s, None)
    ensures action != OtherAction ==> r.1.Some?
    ensures action == CycleHz ==> r.0.widget.isFixedHz == s.widget.isFixedHz
    ensures action == ToggleFix ==> r.0.widget.currentHz == s.widget.currentHz
  {
    match action
    case CycleHz =>
      var (t, i) := OnCycleHz(s);
      (t, Some(i))
    case ToggleFix =>
      var (t, i) := OnToggleFix(s);
      (t, Some(i))
    case OtherAction => (s, None)
  }

  /** Toggling twice restores the widget store once the fixed flag has been written. */
  lemma ToggleTwiceRestoresWidget(s: Stores)
    requires s.widget.isFixedHz.Some?
    ensures OnToggleFix(OnToggleFix(s).0).0.widget == s.widget
  {
  }

  /** Toggling twice from a store that never held the flag leaves it explicitly `false`. */
  lemma ToggleTwiceWritesDefault(s: Stores)
    requires s.widget.isFixedHz.None?
    ensures OnToggleFix(OnToggleFix(s).0).0.widget == s.widget.(isFixedHz := Some(false))
  {
  }
}
