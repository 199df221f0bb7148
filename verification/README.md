# Hz Changer: refresh-rate state across Activity, widget and tile

Hz Changer is an Android utility that switches a rooted phone's display
refresh rate between 60, 90 and 120 Hz. The rate can be "fixed", which pins the
minimum to the peak, or left variable. It has three control surfaces:

- the main Activity;
- a home-screen widget;
- a Quick-Settings tile.

All three end up writing the two system settings `peak_refresh_rate` and
`min_refresh_rate`. They stay in step through two preference stores:

- **widget store**: `current_hz` (a rate) and `is_fixed_hz`;
- **tile store**: `current_hz`, which holds a *tile state* 0..5 that stands for
  one of six (peak, min, fixed) configurations.

This project models that shared state as a functional state machine. Each
surface's handler is one atomic transition over an immutable record of the two
stores. The model proves how the six-state encoding, the cycle and toggle
buttons, the store synchronisation and the settings commands behave.

Modules, one per source file plus two shared ones:

- `Prefs` (prefs.dfy): the two stores, in which a key never written is `None`
  and each reader applies its own default. Also Kotlin `Int` wrap-around and
  truncating `%`.
- `SystemSettings` (system_settings.dfy): a settings write `Put(key, hz)` and
  the ordered peak-then-min pair.
- `HzService` (hz_service.dfy): the foreground service, which turns intent
  extras into writes.
- `TileService` (tile_service.dfy): the tile's state decoder and encoder, its
  cycle, click, sync and labels.
- `Widget` (widget.dfy): the cycle and fix buttons and the widget's copy of the
  encoder.
- `Activity` (activity.dfy): the selected max/min, button handlers, the
  command pair, the store writes and the Activity's exact encoder.
- `SyncProtocol` (sync_protocol.dfy): cross-surface properties. These are an
  invariant every event preserves (`SyncProtocol.StepPreservesValid`, the union
  of the three per-surface lemmas in the table below), whether the tile's label matches what was
  written, and round trips between surfaces.

Several behaviours follow from the code as written, and the model proves each:

- The tile's and the widget's encoders test `hz == 120 && !isFixed` twice.
  State 4 (90-120 Hz) therefore never comes out of them, and re-encoding state 4
  gives state 2.
- The service ignores the `min_hz` extra. The tile's state 4 is therefore
  written as 120/60, not 120/90.
- After the widget's cycle button the tile state is encoded as if the rate
  were variable, giving 60 Hz (state 0), 60-90 Hz (1) or 60-120 Hz (2). The
  service, though, fixes the rate whenever the widget store says "fixed".
- Suppose the tile re-reads the widget store between clicks, as it does each
  time the panel starts listening. Then after at most four clicks the state
  seen after each reopen alternates between 2 (60-120 Hz) and 3 (90 Hz fixed).
  60 Hz fixed, 60-90 Hz and 120 Hz fixed are never reached again. Every second click
  passes through state 4: the tile then shows 90-120 Hz while the service
  writes 120/60, until the next reopen turns the state into 2.
- The Activity can write a minimum above the peak.

## Model

| member | source | states |
|---|---|---|
| `HzService.SetRefreshRate` | app/src/main/java/com/marcossilqueira/hzchanger/HzChangerService.kt:69-84 | Exactly two writes, peak first. The peak is `hz`. The min is `hz` when fixed and 60 otherwise. Once `hz` is at least 60, the min is never above the peak. |
| `HzService.ResolveFixed` | app/src/main/java/com/marcossilqueira/hzchanger/HzChangerService.kt:49-60 | With `toggle_fix` set, "fixed" comes from the intent's `is_fixed` (default false). Otherwise it comes from the widget store's `is_fixed_hz`, which counts as false when absent. |
| `HzService.RequestedCommands` | app/src/main/java/com/marcossilqueira/hzchanger/HzChangerService.kt:45-61 | A null intent asks for no writes. Otherwise it asks for the pair for `hz`, which defaults to 60, with the min chosen by the resolved fixed flag. |
| `HzService.ExecutedCommands` | app/src/main/java/com/marcossilqueira/hzchanger/HzChangerService.kt:86-102 | Only root access runs the requested writes. The Shizuku branch and the no-access branch run nothing. |
| `HzService.MinHzExtraIgnored` | app/src/main/java/com/marcossilqueira/hzchanger/HzChangerService.kt:46-60 | Changing the `min_hz` extra never changes what the service writes. |
| `HzService.RequestedRangeWellFormed` | app/src/main/java/com/marcossilqueira/hzchanger/HzChangerService.kt:72-84 | Whenever the requested rate is at least 60, the written min is not above the written peak. |
| `TileService.RefreshRateSettings` | app/src/main/java/com/marcossilqueira/hzchanger/HzChangerTileService.kt:256-265 | Every decoded configuration has min ≤ peak, both in {60, 90, 120}. It is fixed exactly when peak = min. States outside 0..5 decode as 60 Hz fixed. |
| `TileService.SettingsInjective` | app/src/main/java/com/marcossilqueira/hzchanger/HzChangerTileService.kt:256-265 | The six states decode to six different configurations. |
| `TileService.TileStateFromWidgetHz` | app/src/main/java/com/marcossilqueira/hzchanger/HzChangerTileService.kt:321-330 | The result is a state other than 4. It is 0 exactly when the rate is neither 90 nor 120. Any other result decodes to the same peak and flag, with a 60 Hz floor when variable. |
| `TileService.WidgetEncodingRoundTrip` | app/src/main/java/com/marcossilqueira/hzchanger/HzChangerTileService.kt:321-330 | Decoding then re-encoding (peak, fixed) returns every state except 4. |
| `TileService.WidgetEncodingLosesStateFour` | app/src/main/java/com/marcossilqueira/hzchanger/HzChangerTileService.kt:325-327 | State 4 re-encodes as state 2, because the guard for state 4 repeats the guard for state 2. |
| `TileService.NextState` | app/src/main/java/com/marcossilqueira/hzchanger/HzChangerTileService.kt:155 | On a valid state the next state is (s+1) mod 6, again valid. Any stored value yields a result in -5..5. A non-negative value below Int.MAX_VALUE yields a valid state. A negative value yields a value ≤ 0. Int.MAX_VALUE wraps around to -2. |
| `TileService.CycleTimesAdvances` | app/src/main/java/com/marcossilqueira/hzchanger/HzChangerTileService.kt:152-157 | n cycles from a valid state s land on (s+n) mod 6. |
| `TileService.CycleReturnsAfterMultipleOfSix` | app/src/main/java/com/marcossilqueira/hzchanger/HzChangerTileService.kt:152-157 | Any multiple of six cycles returns a valid state to itself. |
| `TileService.CycleNotSooner` | app/src/main/java/com/marcossilqueira/hzchanger/HzChangerTileService.kt:152-157 | Between one and five cycles never return a valid state to itself. |
| `TileService.CycleRefreshRate` | app/src/main/java/com/marcossilqueira/hzchanger/HzChangerTileService.kt:152-157 | The returned state is the stored one. The widget store is untouched. A valid state advances by one modulo 6, and an absent state (read as 0) becomes 1. |
| `TileService.SaveWidgetState` | app/src/main/java/com/marcossilqueira/hzchanger/HzChangerTileService.kt:268-273 | Both widget keys take the given values and the tile store is untouched. |
| `TileService.ApplyRefreshRateChange` | app/src/main/java/com/marcossilqueira/hzchanger/HzChangerTileService.kt:229-246 | The widget store takes the decoded (peak, fixed) and the tile state stays as it was. The service intent carries the decoded peak, min and flag, without `toggle_fix`. |
| `TileService.OnClick` | app/src/main/java/com/marcossilqueira/hzchanger/HzChangerTileService.kt:83-99 | Without permission, nothing is stored and no service starts. With permission, the tile state cycles, the widget store takes the new state's (peak, fixed), and the service is asked to apply that state's configuration. |
| `TileService.SyncWithWidget` | app/src/main/java/com/marcossilqueira/hzchanger/HzChangerTileService.kt:299-315 | If the widget rate is absent (or -1), nothing changes. Otherwise the tile state becomes the encoded widget pair, which is never 4. The widget store is untouched. |
| `TileService.HzStateLabel` | app/src/main/java/com/marcossilqueira/hzchanger/HzChangerTileService.kt:165-174 | Each label announces exactly the decoded (peak, min) of its state. Out-of-range states get the 60 Hz label, as state 0 does. |
| `Widget.NextHz` | app/src/main/java/com/marcossilqueira/hzchanger/HzChangerWidget.kt:52-56 | The result is always 60, 90 or 120. 60 and 90 step up by 30, and every other value restarts at 60. |
| `Widget.NextHzTimesAdvances` | app/src/main/java/com/marcossilqueira/hzchanger/HzChangerWidget.kt:48-58 | n presses from a rate move its position in (60, 90, 120) by n modulo 3. |
| `Widget.CycleHzReturnsAfterMultipleOfThree` | app/src/main/java/com/marcossilqueira/hzchanger/HzChangerWidget.kt:48-58 | Any multiple of three presses returns a rate to itself. |
| `Widget.TileStateFromHz` | app/src/main/java/com/marcossilqueira/hzchanger/HzChangerWidget.kt:155-164 | Never yields state 4, and agrees on every input with the tile's encoder (HzChangerTileService.kt lines 321-330). The two copies of the encoder are therefore interchangeable. |
| `Widget.SaveTileState` | app/src/main/java/com/marcossilqueira/hzchanger/HzChangerWidget.kt:143-153 | A missing flag counts as variable, which gives state 0, 1 or 2. The stored state is never 4 and the widget store is untouched. |
| `Widget.OnCycleHz` | app/src/main/java/com/marcossilqueira/hzchanger/HzChangerWidget.kt:48-60 | Only `current_hz` changes, to the next rate, and `is_fixed_hz` is kept. The tile state is encoded as variable whatever the flag, so it is 0, 1 or 2. The service intent carries the new rate and no `toggle_fix`. |
| `Widget.OnToggleFix` | app/src/main/java/com/marcossilqueira/hzchanger/HzChangerWidget.kt:61-68 | Only `is_fixed_hz` changes, to its negation. The tile state encodes (rate, new flag). The intent carries `toggle_fix` with the new flag. |
| `Widget.OnReceive` | app/src/main/java/com/marcossilqueira/hzchanger/HzChangerWidget.kt:38-69 | Other actions change nothing and start nothing. Cycling keeps the flag, toggling keeps the rate, and both start the service. |
| `Widget.ToggleTwiceRestoresWidget` | app/src/main/java/com/marcossilqueira/hzchanger/HzChangerWidget.kt:61-63 | Two toggles restore a widget store whose flag was written. |
| `Widget.ToggleTwiceWritesDefault` | app/src/main/java/com/marcossilqueira/hzchanger/HzChangerWidget.kt:61-63 | Two toggles on a never-written flag leave it explicitly false. |
| `Activity.SyncButtonStates` | app/src/main/java/com/marcossilqueira/hzchanger/MainActivity.kt:57-71 | A fixed widget gives max = min = its rate (default 60). Otherwise min = 60 and max ∈ {60, 90, 120}: max is the widget rate when that is 90 or 120, and the result is (60, 60) exactly when it is not. |
| `Activity.SelectMaxRate` | app/src/main/java/com/marcossilqueira/hzchanger/MainActivity.kt:263-265 | Only the maximum changes. |
| `Activity.SelectMinRate` | app/src/main/java/com/marcossilqueira/hzchanger/MainActivity.kt:270-272 | Only the minimum changes. |
| `Activity.ActivityCommands` | app/src/main/java/com/marcossilqueira/hzchanger/MainActivity.kt:292-310 | Both branches write peak = selected max and then min = selected min. The two written values are equal exactly when the selection is fixed. |
| `Activity.ActivityMayInvertRange` | app/src/main/java/com/marcossilqueira/hzchanger/MainActivity.kt:298-310 | Max 60 with min 120 writes a min above the peak. |
| `Activity.TileStateFromAppHz` | app/src/main/java/com/marcossilqueira/hzchanger/MainActivity.kt:366-375 | The result is always a state 0..5. A non-zero result's configuration matches (peak, flag, and min unless fixed). Whenever some state 1..5 matches, that state is the result. |
| `Activity.AppEncodingRoundTrip` | app/src/main/java/com/marcossilqueira/hzchanger/MainActivity.kt:366-375 | Encoding a decoded configuration returns the state, for all six states including 4. |
| `Activity.InvertedRangeEncodesAsZero` | app/src/main/java/com/marcossilqueira/hzchanger/MainActivity.kt:366-375 | A selection whose min is above its max is stored as state 0. |
| `Activity.SaveAppState` | app/src/main/java/com/marcossilqueira/hzchanger/MainActivity.kt:344-358 | The widget store holds exactly (peak, fixed). The tile store holds exactly the Activity's encoding, which is a valid state. |
| `Activity.ApplyRefreshRate` | app/src/main/java/com/marcossilqueira/hzchanger/MainActivity.kt:291-335 | With root, the selected pair is written. Without root, nothing is written. Either way the stores record the selection, with "fixed" meaning max = min. |
| `Activity.OnSelectMax` | app/src/main/java/com/marcossilqueira/hzchanger/MainActivity.kt:263-268 | Only the maximum changes. The pair written is (new max, old min), and the widget store records the new max. |
| `Activity.OnSelectMin` | app/src/main/java/com/marcossilqueira/hzchanger/MainActivity.kt:270-275 | Only the minimum changes. The pair written is (old max, new min), and the widget store records the old max. |
| `SyncProtocol.InitialValid` | app/src/main/java/com/marcossilqueira/hzchanger/MainActivity.kt:35-36 | On a fresh install no key is stored and both selected rates are 60, which satisfies the app invariant. |
| `SyncProtocol.ActivityCreatedValid` | app/src/main/java/com/marcossilqueira/hzchanger/MainActivity.kt:54-71 | From valid stores, the selection the Activity rebuilds on creation is made of button values, so the invariant holds from the first screen on. |
| `SyncProtocol.TileEventsPreserveValid` | app/src/main/java/com/marcossilqueira/hzchanger/HzChangerTileService.kt:43-113 | A tile click, with or without permission, and the sync on listening keep the tile state in 0..5, the widget rate in {60, 90, 120} and the selection unchanged. |
| `SyncProtocol.WidgetEventsPreserveValid` | app/src/main/java/com/marcossilqueira/hzchanger/HzChangerWidget.kt:47-68 | Every widget action keeps the tile state in 0..5 and the widget rate in {60, 90, 120}. |
| `SyncProtocol.ActivityEventsPreserveValid` | app/src/main/java/com/marcossilqueira/hzchanger/MainActivity.kt:263-358 | Each max or min button, offering only 60, 90 and 120, and each rebuild of the selection from the widget store keeps the stores valid and the selection in button values. |
| `SyncProtocol.TileAndWidgetWritesWellFormed` | app/src/main/java/com/marcossilqueira/hzchanger/HzChangerService.kt:72-84 | From valid stores, writes caused by the tile or the widget have a peak of 60, 90 or 120 and a min not above it. |
| `SyncProtocol.TileClickAgreesUnlessFour` | app/src/main/java/com/marcossilqueira/hzchanger/HzChangerService.kt:79-83 | After a click, the service writes exactly the new tile state's configuration if and only if that state is not 4. State 4 is written as 120/60. |
| `SyncProtocol.WidgetCycleAgreesUnlessFixed` | app/src/main/java/com/marcossilqueira/hzchanger/HzChangerWidget.kt:113-124 | After the cycle button, the tile state matches the written pair if and only if the widget was not fixed or the new rate is 60. |
| `SyncProtocol.WidgetToggleAgrees` | app/src/main/java/com/marcossilqueira/hzchanger/HzChangerWidget.kt:127-140 | From valid stores, after the fix toggle the tile state matches the written pair. |
| `SyncProtocol.ActivityAgreesUnlessInverted` | app/src/main/java/com/marcossilqueira/hzchanger/MainActivity.kt:291-358 | For button selections, the stored tile state matches the written pair if and only if min ≤ max. |
| `SyncProtocol.ActivityStoresWithoutRoot` | app/src/main/java/com/marcossilqueira/hzchanger/MainActivity.kt:312-335 | Without root nothing is written, yet the widget store records the selection. |
| `SyncProtocol.ActivitySaveThenSync` | app/src/main/java/com/marcossilqueira/hzchanger/MainActivity.kt:57-71 | Saving a selection and syncing the buttons back returns it if and only if it is fixed or a 60 Hz floor under 90 or 120. |
| `SyncProtocol.ActivityRangeLostByTileSync` | app/src/main/java/com/marcossilqueira/hzchanger/HzChangerTileService.kt:303-312 | The Activity's 90-120 Hz is stored as tile state 4, and the tile's next sync turns it into 2. |
| `SyncProtocol.ClickAndReopenTile` | app/src/main/java/com/marcossilqueira/hzchanger/HzChangerTileService.kt:56-57 | A click followed by a sync leaves a tile state that depends only on the previous one and is never 4. |
| `SyncProtocol.ReopenedStateApproachesTrap` | app/src/main/java/com/marcossilqueira/hzchanger/HzChangerTileService.kt:321-330 | Each click-and-sync round brings any stored state one round closer to {2, 3}, and {2, 3} is never left. |
| `SyncProtocol.ClickAndReopenTrapped` | app/src/main/java/com/marcossilqueira/hzchanger/HzChangerTileService.kt:42-113 | Start from any stores, with a sync between clicks. After four or more rounds the tile state is 2 or 3. |
| `SyncProtocol.TrapAlternates` | app/src/main/java/com/marcossilqueira/hzchanger/HzChangerTileService.kt:152-157 | Inside the trap a click-and-sync round turns state 2 into 3 and state 3 into 2. |
| `SyncProtocol.ClickAndReopenAlternates` | app/src/main/java/com/marcossilqueira/hzchanger/HzChangerTileService.kt:83-113 | From any stores, after four or more rounds the state is 2 or 3 and the next round swaps it for the other. |
| `SyncProtocol.ClickFromThreeShowsFour` | app/src/main/java/com/marcossilqueira/hzchanger/HzChangerTileService.kt:94-102 | A click from state 3 stores state 4, labelled 90-120 Hz. The service writes 120/60 for it, and the next sync turns the state into 2. |

## Left out

- Root detection, `su` execution and the Shizuku checks are left out. Whether
  the device is rooted, or the tile has permission, is a boolean parameter. The
  service's path is an `Access` value.
- An exception thrown part-way through executing the commands is not modelled:
  a write is assumed to run completely or not at all.
- The display's current refresh rate (`getCurrentRefreshRate`,
  `updateCurrentRefreshRate`) is left out. It is a platform float that no stored
  state depends on.
- The following UI plumbing is left out: `RemoteViews`, `Tile` rendering,
  pending intents, dialogs, status texts, button enabled/selected flags,
  notification channels and `onUpdate` redraws.
- Broadcast registration and sending (`updateWidget`, `updateTile`) and the
  100 ms `postDelayed` refresh are asynchronous delivery. Each handler is one
  atomic step. A service start is assumed to run right after the handler that
  sent it. The tile's `onStartListening` and its broadcast receiver are both the
  `TileListen` event.
- The `".0"` suffix of a settings command is rendering and is left out; a
  command is `Put(key, hz)`.
- Type mismatches in a preference store (a `ClassCastException` from `getInt`)
  are left out. Each key always holds the type the app writes.
- The unused `current_state` key of the tile store is left out, along with
  build configuration and the instrumented package-name test.
- The preference stores are modelled as holding only the keys the app uses, so
  rewriting both keys of a store rewrites the whole store.
