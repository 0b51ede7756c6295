/** The frame-to-bitmap steps of ImageExtensions.kt: imageProxyToBitmap,
    which dispatches on the frame's format, and saveColorChannelToImage,
    which turns one capture into its single-channel bitmap and always
    closes the frame. The NV21-to-JPEG-to-Bitmap and JPEG-to-Bitmap
    decoders are platform code and are passed in as functions. */
module ImageExtensions {
  import opened Outcomes
  import opened Frames
  import opened Bitmaps
  import Color
  import Nv21

  /** The platform decoders: nv21ToBitmap (YuvImage.compressToJpeg, then
      BitmapFactory.decodeByteArray) given the NV21 bytes, a width and a
      height, and jpegToBitmap (BitmapFactory.decodeByteArray) given the
      compressed bytes. Either may return null or throw. */
  datatype Codecs = Codecs(
    nv21ToBitmap: (seq<bv8>, int, int) -> Outcome<Option<Bitmap>>,
    jpegToBitmap: seq<bv8> -> Outcome<Option<Bitmap>>)

  /** The decoders only ever return Android bitmaps: a positive size and
      all their pixels. */
  ghost predicate DecodesValid(codecs: Codecs) {
    (forall s, w, h :: codecs.nv21ToBitmap(s, w, h).Returned? && codecs.nv21ToBitmap(s, w, h).value.Some? ==>
      codecs.nv21ToBitmap(s, w, h).value.value.Valid()) &&
    (forall s :: codecs.jpegToBitmap(s).Returned? && codecs.jpegToBitmap(s).value.Some? ==>
      codecs.jpegToBitmap(s).value.value.Valid())
  }

  /** Every pixel of `b` has 0 in the two colour components other than `channel`. */
  predicate OnlyChannel(b: Bitmap, channel: Channel) {
    forall i :: 0 <= i < |b.pixels| ==>
      (channel != Red ==> Color.Red(b.pixels[i]) == 0) &&
      (channel != Green ==> Color.Green(b.pixels[i]) == 0) &&
      (channel != Blue ==> Color.Blue(b.pixels[i]) == 0)
  }

  /** What imageProxyToBitmap returns or throws for a frame. */
  function Conversion(image: ImageProxy, codecs: Codecs): (r: Outcome<Option<Bitmap>>)
    requires image.Valid()
    ensures image.format == YUV_420_888 && !Nv21.ReadsInBounds(image) ==> r == Thrown(BufferAccess)
    ensures image.format == YUV_420_888 && Nv21.ReadsInBounds(image) ==>
      forall s :: Nv21.IsNv21(image, s) ==> r == codecs.nv21ToBitmap(s, image.width, image.height)
    ensures image.format == JPEG ==> r == codecs.jpegToBitmap(image.planes[0].buffer)
    ensures image.format != YUV_420_888 && image.format != JPEG ==> r == Returned(None)
    ensures DecodesValid(codecs) && r.Returned? && r.value.Some? ==> r.value.value.Valid()
  {
    if image.format == YUV_420_888 then
      if Nv21.ReadsInBounds(image) then
        var nv21 := Nv21.Nv21(image);
        assert forall s :: Nv21.IsNv21(image, s) ==> s == nv21 by {
          forall s | Nv21.IsNv21(image, s)
            ensures s == nv21
          {
            Nv21.Nv21Unique(image, s);
          }
        }
        codecs.nv21ToBitmap(nv21, image.width, image.height)
      else
        Thrown(BufferAccess)
    else if image.format == JPEG then
      codecs.jpegToBitmap(image.planes[0].buffer)
    else
      Returned(None)
  }

  /** imageProxyToBitmap: a YUV_420_888 frame is repacked as NV21 and
      decoded with the frame's own width and height, a JPEG frame is decoded
      from plane 0, any other format gives null. */
  method ImageProxyToBitmap(image: ImageProxy, codecs: Codecs) returns (r: Outcome<Option<Bitmap>>)
    requires image.Valid()
    ensures r == Conversion(image, codecs)
  {
    if image.format == YUV_420_888 {
      var nv21 := Nv21.Yuv420ToNv21(image);
      if nv21.Thrown? {
        return Thrown(nv21.exception);
      }
      r := codecs.nv21ToBitmap(nv21.value, image.width, image.height);
    } else if image.format == JPEG {
      // buffer.remaining() bytes from the start of plane 0
      r := codecs.jpegToBitmap(image.planes[0].buffer);
    } else {
      r := Returned(None);
    }
  }

  /** The try/catch of saveColorChannelToImage around a conversion: a
      decoded bitmap becomes its channel bitmap, null stays null, an
      IOException is swallowed into null and any other exception escapes. */
  function ChannelResult(conversion: Outcome<Option<Bitmap>>, channel: Channel): (r: Outcome<Option<Bitmap>>)
    ensures r.Thrown? ==> conversion.Thrown? && r.exception == conversion.exception && r.exception != IOException
    ensures r.Returned? && r.value.Some? ==>
      conversion.Returned? && conversion.value.Some? &&
      r.value.value.width == conversion.value.value.width && r.value.value.height == conversion.value.value.height &&
      OnlyChannel(r.value.value, channel)
    ensures conversion.Returned? && conversion.value.Some? ==> r.Returned? && r.value.Some?
    ensures conversion.Returned? && conversion.value.Some? && conversion.value.value.Valid() ==> r.value.value.Valid()
    ensures conversion.Returned? && conversion.value.None? ==> r == Returned(None)
    ensures conversion == Thrown(IOException) ==> r == Returned(None)
  {
    match conversion
    case Returned(None) => Returned(None)
    case Returned(Some(bitmap)) => Returned(Some(CreateChannelBitmap(bitmap, channel)))
    case Thrown(IOException) => Returned(None)
    case Thrown(e) => Thrown(e)
  }

  /** saveColorChannelToImage: converts the frame, isolates the channel and,
      whatever happens, closes the frame exactly once. */
  method SaveColorChannelToImage(imageProxy: ImageProxy, channel: Channel, codecs: Codecs) returns (r: Outcome<Option<Bitmap>>)
    requires imageProxy.Valid()
    modifies imageProxy
    ensures r == ChannelResult(Conversion(imageProxy, codecs), channel)
    ensures imageProxy.closeCount == old(imageProxy.closeCount) + 1
  {
    var bitmap := ImageProxyToBitmap(imageProxy, codecs);
    match bitmap {
      case Returned(None) =>
        r := Returned(None);
      case Returned(Some(b)) =>
        r := Returned(Some(CreateChannelBitmap(b, channel)));
      case Thrown(IOException) =>
        r := Returned(None);
      case Thrown(e) =>
        r := Thrown(e);
    }
    // finally
    imageProxy.Close();
  }
}
