/** The ARGB_8888 bitmaps of the pipeline and the two per-pixel operations on
    them: isolating one colour channel (createChannelBitmap) and recombining
    three isolated captures into one colour image (combineRGBChannels). */
module Bitmaps {
  import opened Outcomes
  import Color

  /** Which filtered exposure a capture stands for. */
  datatype Channel = Red | Green | Blue

  /** A decoded bitmap: its size and its pixels in row-major order, as
      `Bitmap.getPixels` hands them out. */
  datatype Bitmap = Bitmap(width: int, height: int, pixels: seq<Color.Argb>) {
    /** What android.graphics.Bitmap guarantees of every instance. */
    predicate Valid() {
      width > 0 && height > 0 && |pixels| == width * height
    }
  }

  /** The bits the 0/1 colour matrix of `channel` lets through: the selected
      colour component and alpha. */
  function ChannelMask(channel: Channel): bv32 {
    match channel
    case Red => 0xFFFF_0000
    case Green => 0xFF00_FF00
    case Blue => 0xFF00_00FF
  }

  /** The effect of the colour matrix of createChannelBitmap on one pixel:
      the selected channel keeps its value, the other two become 0 and alpha
      is kept. */
  function IsolatePixel(p: Color.Argb, channel: Channel): (q: Color.Argb)
    ensures Color.Alpha(q) == Color.Alpha(p)
    ensures Color.Red(q) == (if channel == Red then Color.Red(p) else 0)
    ensures Color.Green(q) == (if channel == Green then Color.Green(p) else 0)
    ensures Color.Blue(q) == (if channel == Blue then Color.Blue(p) else 0)
  {
    p & ChannelMask(channel)
  }

  /** createChannelBitmap: a new bitmap of the same size with every pixel
      reduced to the selected channel and alpha. */
  function CreateChannelBitmap(original: Bitmap, channel: Channel): (r: Bitmap)
    ensures r.width == original.width && r.height == original.height
    ensures |r.pixels| == |original.pixels|
    ensures original.Valid() ==> r.Valid()
    ensures forall i :: 0 <= i < |r.pixels| ==>
      Color.Alpha(r.pixels[i]) == Color.Alpha(original.pixels[i]) &&
      Color.Red(r.pixels[i]) == (if channel == Red then Color.Red(original.pixels[i]) else 0) &&
      Color.Green(r.pixels[i]) == (if channel == Green then Color.Green(original.pixels[i]) else 0) &&
      Color.Blue(r.pixels[i]) == (if channel == Blue then Color.Blue(original.pixels[i]) else 0)
  {
    var pixels := seq(|original.pixels|, i requires 0 <= i < |original.pixels| =>
      IsolatePixel(original.pixels[i], channel));
    Bitmap(original.width, original.height, pixels)
  }

  /** Isolating a channel twice is the same as isolating it once. */
  lemma CreateChannelBitmapIdempotent(b: Bitmap, channel: Channel)
    ensures CreateChannelBitmap(CreateChannelBitmap(b, channel), channel) == CreateChannelBitmap(b, channel)
  {
    var once := CreateChannelBitmap(b, channel);
    var twice := CreateChannelBitmap(once, channel);
    forall i | 0 <= i < |b.pixels|
      ensures twice.pixels[i] == once.pixels[i]
    {
      Color.ComponentsDetermine(twice.pixels[i], once.pixels[i]);
    }
  }

  /** The requirement combineRGBChannels puts on its three inputs. */
  predicate SameDimensions(red: Bitmap, green: Bitmap, blue: Bitmap) {
    red.width == green.width && red.width == blue.width &&
    red.height == green.height && red.height == blue.height
  }

  const DimensionMessage: string := "Input bitmaps must have the same dimensions"

  /** The value combineRGBChannels returns or throws: a bitmap of the
      common size, or an IllegalArgumentException when the sizes differ. */
  function Combined(red: Bitmap, green: Bitmap, blue: Bitmap): (r: Outcome<Bitmap>)
    requires red.Valid() && green.Valid() && blue.Valid()
    ensures r.Thrown? <==> !SameDimensions(red, green, blue)
    ensures r.Thrown? ==> r.exception == IllegalArgument(DimensionMessage)
    ensures r.Returned? ==>
      r.value.Valid() && r.value.width == red.width && r.value.height == red.height
  {
    if !SameDimensions(red, green, blue) then
      Thrown(IllegalArgument(DimensionMessage))
    else
      Returned(Bitmap(red.width, red.height, seq(red.width * red.height, i requires 0 <= i < red.width * red.height =>
        Color.Rgb(Color.Red(red.pixels[i]), Color.Green(green.pixels[i]), Color.Blue(blue.pixels[i])))))
  }

  /** Each combined pixel is opaque and takes its red from the red capture,
      its green from the green one and its blue from the blue one. */
  lemma CombinedPixels(red: Bitmap, green: Bitmap, blue: Bitmap)
    requires red.Valid() && green.Valid() && blue.Valid()
    ensures var r := Combined(red, green, blue);
      r.Returned? ==> forall i :: 0 <= i < |r.value.pixels| ==>
        Color.Alpha(r.value.pixels[i]) == 0xFF &&
        Color.Red(r.value.pixels[i]) == Color.Red(red.pixels[i]) &&
        Color.Green(r.value.pixels[i]) == Color.Green(green.pixels[i]) &&
        Color.Blue(r.value.pixels[i]) == Color.Blue(blue.pixels[i])
  {
  }

  /** combineRGBChannels: checks the sizes, then fills a fresh pixel array
      one index at a time. The inputs are values and stay as they were. */
  method CombineRgbChannels(redBitmap: Bitmap, greenBitmap: Bitmap, blueBitmap: Bitmap) returns (r: Outcome<Bitmap>)
    requires redBitmap.Valid() && greenBitmap.Valid() && blueBitmap.Valid()
    ensures r == Combined(redBitmap, greenBitmap, blueBitmap)
  {
    if !SameDimensions(redBitmap, greenBitmap, blueBitmap) {
      return Thrown(IllegalArgument(DimensionMessage));
    }
    var width := redBitmap.width;
    var height := redBitmap.height;
    var redPixels, greenPixels, bluePixels := redBitmap.pixels, greenBitmap.pixels, blueBitmap.pixels;
    var combinedPixels := new Color.Argb[width * height];
    for i := 0 to width * height
      invariant forall k :: 0 <= k < i ==>
        combinedPixels[k] == Color.Rgb(Color.Red(redPixels[k]), Color.Green(greenPixels[k]), Color.Blue(bluePixels[k]))
    {
      var red := Color.Red(redPixels[i]);
      var green := Color.Green(greenPixels[i]);
      var blue := Color.Blue(bluePixels[i]);
      combinedPixels[i] := Color.Rgb(red, green, blue);
    }
    assert combinedPixels[..] == Combined(redBitmap, greenBitmap, blueBitmap).value.pixels;
    r := Returned(Bitmap(width, height, combinedPixels[..]));
  }

  /** Isolating each capture's own channel before combining loses nothing
      the compositor reads. */
  lemma CombineIsolatedChannels(red: Bitmap, green: Bitmap, blue: Bitmap)
    requires red.Valid() && green.Valid() && blue.Valid()
    ensures Combined(CreateChannelBitmap(red, Red), CreateChannelBitmap(green, Green), CreateChannelBitmap(blue, Blue))
         == Combined(red, green, blue)
  {
    var isolated := Combined(CreateChannelBitmap(red, Red), CreateChannelBitmap(green, Green), CreateChannelBitmap(blue, Blue));
    var plain := Combined(red, green, blue);
    CombinedPixels(CreateChannelBitmap(red, Red), CreateChannelBitmap(green, Green), CreateChannelBitmap(blue, Blue));
    CombinedPixels(red, green, blue);
    if plain.Returned? {
      forall i | 0 <= i < |plain.value.pixels|
        ensures isolated.value.pixels[i] == plain.value.pixels[i]
      {
        Color.ComponentsDetermine(isolated.value.pixels[i], plain.value.pixels[i]);
      }
      assert isolated.value.pixels == plain.value.pixels;
    }
  }

  /** A bitmap of the given size with every pixel `c`. */
  function Filled(width: int, height: int, c: Color.Argb): (b: Bitmap)
    requires width > 0 && height > 0
    ensures b.Valid()
  {
    Bitmap(width, height, seq(width * height, _ => c))
  }

  /** Opaque pure red, green and blue captures combine to opaque white. */
  lemma PrimariesCombineToWhite(width: int, height: int)
    requires width > 0 && height > 0
    ensures Combined(Filled(width, height, 0xFFFF_0000), Filled(width, height, 0xFF00_FF00), Filled(width, height, 0xFF00_00FF))
         == Returned(Filled(width, height, 0xFFFF_FFFF))
  {
    var r := Combined(Filled(width, height, 0xFFFF_0000), Filled(width, height, 0xFF00_FF00), Filled(width, height, 0xFF00_00FF));
    var white := Filled(width, height, 0xFFFF_FFFF);
    CombinedPixels(Filled(width, height, 0xFFFF_0000), Filled(width, height, 0xFF00_FF00), Filled(width, height, 0xFF00_00FF));
    forall i | 0 <= i < width * height
      ensures r.value.pixels[i] == white.pixels[i]
    {
      Color.ComponentsDetermine(r.value.pixels[i], white.pixels[i]);
    }
    assert r.value.pixels == white.pixels;
  }
}
