/**
 The privileged operation every control surface converges on: writing the two
 Android system settings `peak_refresh_rate` and `min_refresh_rate`. A shell
 command `settings put system <key> <hz>.0` is modelled as `Put(key, hz)`.
 */
module SystemSettings {
  import opened Prefs

  datatype Key = PeakRefreshRate | MinRefreshRate

  datatype Command = Put(key: Key, hz: Int32)

  /** The ordered pair of writes the app always issues: peak first, then min. */
  function WritePair(peakHz: Int32, minHz: Int32): seq<Command> {
    [Put(PeakRefreshRate, peakHz), Put(MinRefreshRate, minHz)]
  }

  /** `cmds` writes exactly `peakHz` to the peak setting and then `minHz` to the min setting. */
  predicate IsWritePair(cmds: seq<Command>, peakHz: Int32, minHz: Int32) {
    && |cmds| == 2
    && cmds[0] == Put(PeakRefreshRate, peakHz)
    && cmds[1] == Put(MinRefreshRate, minHz)
  }

  /** The requested adaptive range is well formed: the floor is not above the ceiling. */
  predicate MinNotAbovePeak(cmds: seq<Command>)
    requires |cmds| == 2
  {
    cmds[1].hz <= cmds[0].hz
  }
}
