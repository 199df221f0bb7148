/**
 The two persisted preference stores shared by the Activity, the widget and the
 Quick-Settings tile, and the pieces of Kotlin `Int` arithmetic the app relies on.

 A preference that was never written is `None`; every reader supplies its own
 default (`getInt(key, default)`), so the default is chosen at the read site.
 */
module Prefs {

  const MinInt32: int := -0x8000_0000
  const MaxInt32: int := 0x7fff_ffff

  /** Kotlin's `Int`. */
  type Int32 = x: int | MinInt32 <= x <= MaxInt32

  datatype Option<+T> = None | Some(value: T) {

    /** The stored value, or `default` when the key was never written. */
    function GetOr(default: T): T {
      match this
      case Some(v) => v
      case None => default
    }
  }

  /** Reduces an unbounded integer to the `Int` it wraps around to. */
  function WrapInt32(x: int): (r: Int32)
    ensures MinInt32 <= x <= MaxInt32 ==> r == x
    ensures (x - r) % 0x1_0000_0000 == 0
  {
    (x - MinInt32) % 0x1_0000_0000 + MinInt32
  }

  /** Kotlin's `a + b` on `Int`: wraps around on overflow. */
  function AddInt32(a: Int32, b: Int32): (r: Int32)
    ensures MinInt32 <= a + b <= MaxInt32 ==> r == a + b
    ensures a + b > MaxInt32 ==> r == a + b - 0x1_0000_0000
  {
    WrapInt32(a + b)
  }

  /** Kotlin's `a / d` for a positive divisor: the quotient is truncated toward zero. */
  function TruncDiv(a: int, d: int): int
    requires d > 0
  {
    if a >= 0 then a / d else -((-a) / d)
  }

  /**
   Kotlin's `a % d` for a positive divisor: the remainder left by `TruncDiv`,
   so a non-zero remainder carries the sign of the dividend (unlike Dafny's
   Euclidean `%`).
   */
  function TruncRem(a: int, d: int): (r: int)
    requires d > 0
    ensures a >= 0 ==> 0 <= r < d
    ensures a < 0 ==> -d < r <= 0
    ensures a == d * TruncDiv(a, d) + r
  {
    if a >= 0 then a % d else -((-a) % d)
  }

  /** Preferences named after the widget class: keys `current_hz` and `is_fixed_hz`. */
  datatype WidgetPrefs = WidgetPrefs(currentHz: Option<Int32>, isFixedHz: Option<bool>)

  /** Preferences named `HzChangerTileService`: key `current_hz` holds a tile state, not a rate. */
  datatype TilePrefs = TilePrefs(currentHz: Option<Int32>)

  /** Everything the three control surfaces persist. */
  datatype Stores = Stores(widget: WidgetPrefs, tile: TilePrefs)

  /** A fresh installation: nothing written yet. */
  const EmptyStores := Stores(WidgetPrefs(None, None), TilePrefs(None))
}
