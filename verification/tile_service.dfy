/**
 The Quick-Settings tile (HzChangerTileService.kt). Its store holds one of six
 tile states; a click cycles the state, writes the decoded rate into the widget
 store and starts the service; listening re-derives the state from the widget
 store.

 | state | peak | min | fixed |
 |-------|------|-----|-------|
 | 0     | 60   | 60  | yes   |
 | 1     | 90   | 60  | no    |
 | 2     | 120  | 60  | no    |
 | 3     | 90   | 90  | yes   |
 | 4     | 120  | 90  | no    |
 | 5     | 120  | 120 | yes   |
 */
module TileService {
  import opened Prefs
  import opened HzService

  const StateCount: int := 6

  predicate IsState(s: int) {
    0 <= s < StateCount
  }

  /** Rate configuration a tile state stands for. */
  datatype RateSettings = RateSettings(peakHz: Int32, minHz: Int32, isFixed: bool)

  predicate IsRate(hz: int) {
    hz == 60 || hz == 90 || hz == 120
  }

  /** Decodes a tile state; anything outside 0..5 reads as 60 Hz fixed. */
  function RefreshRateSettings(state: Int32): (r: RateSettings)
    ensures IsRate(r.peakHz) && IsRate(r.minHz)
    ensures r.minHz <= r.peakHz
    ensures r.isFixed <==> r.peakHz == r.minHz
    ensures !IsState(state) ==> r == RateSettings(60, 60, true)
  {
    match state
    case 0 => RateSettings(60, 60, true)
    case 1 => RateSettings(90, 60, false)
    case 2 => RateSettings(120, 60, false)
    case 3 => RateSettings(90, 90, true)
    case 4 => RateSettings(120, 90, false)
    case 5 => RateSettings(120, 120, true)
    case _ => RateSettings(60, 60, true)
  }

  /** Distinct tile states decode to distinct configurations. */
  lemma SettingsInjective(s: Int32, t: Int32)
    requires IsState(s) && IsState(t) && s != t
    ensures RefreshRateSettings(s) != RefreshRateSettings(t)
  {
  }

  /**
   Encodes the widget's (Hz, fixed) pair as a tile state. The guard for
   state 4 repeats the guard for state 2, so 4 is never produced: a variable
   120 Hz always becomes the 60-120 range.
   */
  function TileStateFromWidgetHz(hz: Int32, isFixed: bool): (r: int)
    ensures IsState(r) && r != 4
    ensures r == 0 <==> hz != 90 && hz != 120
    ensures r != 0 ==>
      var t := RefreshRateSettings(r);
      t.peakHz == hz && t.isFixed == isFixed && (isFixed || t.minHz == 60)
  {
    if hz == 60 && isFixed then 0
    else if hz == 90 && !isFixed then 1
    else if hz == 120 && !isFixed then 2
    else if hz == 90 && isFixed then 3
    else if hz == 120 && !isFixed then 4
    else if hz == 120 && isFixed then 5
    else 0
  }

  /** Decoding a state and re-encoding its (peak, fixed) gives the state back, except for state 4. */
  lemma WidgetEncodingRoundTrip(s: Int32)
    requires IsState(s) && s != 4
    ensures TileStateFromWidgetHz(RefreshRateSettings(s).peakHz, RefreshRateSettings(s).isFixed) == s
  {
  }

  /** State 4 (90-120 Hz) comes back as state 2 (60-120 Hz). */
  lemma WidgetEncodingLosesStateFour()
    ensures TileStateFromWidgetHz(RefreshRateSettings(4).peakHz, RefreshRateSettings(4).isFixed) == 2
  {
  }

  /** The state after `current`: `(current + 1) % 6` in Kotlin `Int` arithmetic. */
  function NextState(current: Int32): (next: Int32)
    ensures IsState(current) ==> IsState(next) && next == (current + 1) % StateCount
    ensures -StateCount < next < StateCount
    ensures 0 <= current < MaxInt32 ==> IsState(next)
    ensures current < 0 ==> next <= 0
    ensures current == MaxInt32 ==> next == -2
  {
    TruncRem(AddInt32(current, 1), StateCount)
  }

  /** `n` successive clicks' worth of state changes. */
  function CycleTimes(s: Int32, n: nat): Int32 {
    if n == 0 then s else NextState(CycleTimes(s, n - 1))
  }

  /** From a valid state, `n` cycles advance the state by `n` modulo 6. */
  lemma {:induction false} CycleTimesAdvances(s: Int32, n: nat)
    requires IsState(s)
    ensures CycleTimes(s, n) == (s + n) % StateCount
  {
    if n > 0 {
      CycleTimesAdvances(s, n - 1);
      SuccessorMod(s + n - 1);
    }
  }

  lemma SuccessorMod(k: int)
    requires k >= 0
    ensures (k % StateCount + 1) % StateCount == (k + 1) % StateCount
  {
    assert k == StateCount * (k / StateCount) + k % StateCount;
    if k % StateCount == StateCount - 1 {
      assert k + 1 == StateCount * (k / StateCount + 1);
    } else {
      assert k + 1 == StateCount * (k / StateCount) + (k % StateCount + 1);
    }
  }

  /** Any multiple of six clicks brings every valid state back to itself. */
  lemma CycleReturnsAfterMultipleOfSix(s: Int32, n: nat)
    requires IsState(s) && n % StateCount == 0
    ensures CycleTimes(s, n) == s
  {
    CycleTimesAdvances(s, n);
    var q := n / StateCount;
    assert s + n == StateCount * q + s;
  }

  /** Fewer than six clicks never bring a valid state back to itself. */
  lemma CycleNotSooner(s: Int32, n: nat)
    requires IsState(s) && 0 < n < StateCount
    ensures CycleTimes(s, n) != s
  {
    CycleTimesAdvances(s, n);
    ShiftMovesState(s, n);
  }

  lemma ShiftMovesState(s: int, n: int)
    requires IsState(s) && 0 < n < StateCount
    ensures (s + n) % StateCount != s
  {
    if s + n < StateCount {
      assert (s + n) % StateCount == s + n;
    } else {
      assert (s + n) % StateCount == s + n - StateCount;
    }
  }

  /** The stored tile state, defaulting to 0 (60 Hz fixed) when never written. */
  function CurrentState(tile: TilePrefs): Int32 {
    tile.currentHz.GetOr(0)
  }

  /** `cycleRefreshRate`: stores and returns the next tile state; the widget store is untouched. */
  function CycleRefreshRate(s: Stores): (r: (Stores, Int32))
    ensures r.0.widget == s.widget
    ensures r.0.tile == TilePrefs(Some(r.1))
    ensures IsState(CurrentState(s.tile)) ==> IsState(r.1) && r.1 == (CurrentState(s.tile) + 1) % StateCount
    ensures s.tile.currentHz.None? ==> r.1 == 1
  {
    var next := NextState(CurrentState(s.tile));
    (s.(tile := TilePrefs(Some(next))), next)
  }

  /** `saveWidgetState`: overwrites both widget keys; the tile store is untouched. */
  function SaveWidgetState(hz: Int32, isFixed: bool, s: Stores): (r: Stores)
    ensures r.tile == s.tile
    ensures r.widget.currentHz == Some(hz) && r.widget.isFixedHz == Some(isFixed)
  {
    s.(widget := WidgetPrefs(Some(hz), Some(isFixed)))
  }

  /** The intent the tile sends to the service for a decoded configuration. */
  function TileIntent(t: RateSettings): Intent {
    Intent(Some(t.peakHz), Some(t.minHz), Some(t.isFixed), None, None, Some(true))
  }

  /**
   `applyRefreshRateChange`: records the decoded rate in the widget store and
   asks the service to apply it; the tile state stays as the cycle left it.
   */
  function ApplyRefreshRateChange(state: Int32, s: Stores): (r: (Stores, Intent))
    ensures r.0.tile == s.tile
    ensures r.0.widget == WidgetPrefs(Some(RefreshRateSettings(state).peakHz), Some(RefreshRateSettings(state).isFixed))
    ensures r.1.hz == Some(RefreshRateSettings(state).peakHz)
    ensures r.1.minHz == Some(RefreshRateSettings(state).minHz)
    ensures r.1.isFixed == Some(RefreshRateSettings(state).isFixed)
    ensures r.1.toggleFix.None?
  {
    var t := RefreshRateSettings(state);
    (SaveWidgetState(t.peakHz, t.isFixed, s), TileIntent(t))
  }

  /**
   `onClick`: without permission nothing is stored and no service is started;
   with it, the tile state cycles and the widget store follows the new state.
   */
  function OnClick(hasPermission: bool, s: Stores): (r: (Stores, Option<Intent>))
    ensures !hasPermission ==> r == (s, None)
    ensures hasPermission ==>
      var next := NextState(CurrentState(s.tile));
      && r.0.tile == TilePrefs(Some(next))
      && r.0.widget == WidgetPrefs(Some(RefreshRateSettings(next).peakHz), Some(RefreshRateSettings(next).isFixed))
      && r.1 == Some(TileIntent(RefreshRateSettings(next)))
  {
    if !hasPermission then (s, None)
    else
      var (cycled, next) := CycleRefreshRate(s);
      var (applied, intent) := ApplyRefreshRateChange(next, cycled);
      (applied, Some(intent))
  }

  /** Widget rate read by the tile when the widget never stored one. */
  const AbsentWidgetHz: Int32 := -1

  /**
   `syncWithWidget`: re-derives the tile state from the widget store, unless
   the widget rate is absent (read as -1), in which case nothing changes.
   */
  function SyncWithWidget(s: Stores): (r: Stores)
    ensures r.widget == s.widget
    ensures s.widget.currentHz.GetOr(AbsentWidgetHz) == AbsentWidgetHz ==> r == s
    ensures s.widget.currentHz.GetOr(AbsentWidgetHz) != AbsentWidgetHz ==>
      && r.tile.currentHz.Some?
      && IsState(r.tile.currentHz.value) && r.tile.currentHz.value != 4
      && r.tile.currentHz == Some(TileStateFromWidgetHz(s.widget.currentHz.value, s.widget.isFixedHz.GetOr(false)))
  {
    var widgetHz := s.widget.currentHz.GetOr(AbsentWidgetHz);
    if widgetHz != AbsentWidgetHz then
      s.(tile := TilePrefs(Some(TileStateFromWidgetHz(widgetHz, s.widget.isFixedHz.GetOr(false)))))
    else
      s
  }

  /** Subtitle shown on the tile. */
  datatype Label = Fixed60 | Range60To90 | Range60To120 | Fixed90 | Range90To120 | Fixed120

  /** The (peak, min) pair a subtitle announces. */
  function Announced(l: Label): (Int32, Int32) {
    match l
    case Fixed60 => (60, 60)
    case Range60To90 => (90, 60)
    case Range60To120 => (120, 60)
    case Fixed90 => (90, 90)
    case Range90To120 => (120, 90)
    case Fixed120 => (120, 120)
  }

  /** `getHzStateString`: the subtitle for a tile state; out-of-range states read as state 0. */
  function HzStateLabel(state: Int32): (l: Label)
    ensures !IsState(state) ==> l == Fixed60
    ensures Announced(l) == (RefreshRateSettings(state).peakHz, RefreshRateSettings(state).minHz)
  {
    match state
    case 0 => Fixed60
    case 1 => Range60To90
    case 2 => Range60To120
    case 3 => Fixed90
    case 4 => Range90To120
    case 5 => Fixed120
    case _ => Fixed60
  }
}
