/** Packed ARGB_8888 colour ints, read and built the way android.graphics.Color
    does: alpha in bits 24..31, red in 16..23, green in 8..15, blue in 0..7.
    A Kotlin `Int` is modelled by its 32 bits. */
module Color {

  type Argb = bv32

  /** `Color.alpha(c)`: `c >>> 24`. */
  function Alpha(c: Argb): bv8 { (c >> 24) as bv8 }

  /** `Color.red(c)`: `(c >> 16) & 0xFF`. */
  function Red(c: Argb): bv8 { ((c >> 16) & 0xFF) as bv8 }

  /** `Color.green(c)`: `(c >> 8) & 0xFF`. */
  function Green(c: Argb): bv8 { ((c >> 8) & 0xFF) as bv8 }

  /** `Color.blue(c)`: `c & 0xFF`. */
  function Blue(c: Argb): bv8 { (c & 0xFF) as bv8 }

  /** `Color.rgb(red, green, blue)`: an opaque colour with the given components. */
  function Rgb(red: bv8, green: bv8, blue: bv8): (c: Argb)
    ensures Alpha(c) == 0xFF
    ensures Red(c) == red && Green(c) == green && Blue(c) == blue
  {
    0xFF00_0000 | (red as bv32 << 16) | (green as bv32 << 8) | blue as bv32
  }

  /** A colour is determined by its four components. */
  lemma ComponentsDetermine(c: Argb, d: Argb)
    requires Alpha(c) == Alpha(d) && Red(c) == Red(d)
    requires Green(c) == Green(d) && Blue(c) == Blue(d)
    ensures c == d
  {
  }
}
