/** The camera frame handed to the capture callback (androidx ImageProxy):
    its format tag, size, crop rectangle and planes, and whether it has been
    closed. */
module Frames {

  /** android.graphics.ImageFormat.YUV_420_888 */
  const YUV_420_888: int := 0x23
  /** android.graphics.ImageFormat.JPEG */
  const JPEG: int := 0x100

  /** Row and pixel strides; the camera never reports one below 1. */
  type Stride = n: int | n >= 1 witness 1

  /** android.graphics.Rect: `width()` is `right - left`, `height()` is `bottom - top`. */
  datatype Rect = Rect(left: int, top: int, right: int, bottom: int) {
    function Width(): int { right - left }
    function Height(): int { bottom - top }
  }

  /** One plane: the bytes of its ByteBuffer (from position 0 to the limit)
      and its strides. */
  datatype Plane = Plane(buffer: seq<bv8>, rowStride: Stride, pixelStride: Stride)

  class ImageProxy {
    const format: int
    const width: int
    const height: int
    const cropRect: Rect
    const planes: seq<Plane>
    /** How many times `close()` has been called. */
    var closeCount: nat

    /** What CameraX guarantees of a frame it delivers: the crop rectangle
        lies inside the image, a YUV_420_888 frame has three planes (Y, U, V)
        and a JPEG frame has its compressed bytes in plane 0. */
    predicate Valid() {
      0 <= cropRect.left <= cropRect.right <= width &&
      0 <= cropRect.top <= cropRect.bottom <= height &&
      (format == YUV_420_888 ==> |planes| == 3) &&
      (format == JPEG ==> |planes| >= 1)
    }

    constructor (format: int, width: int, height: int, cropRect: Rect, planes: seq<Plane>)
      ensures this.format == format && this.width == width && this.height == height
      ensures this.cropRect == cropRect && this.planes == planes
      ensures closeCount == 0
    {
      this.format := format;
      this.width := width;
      this.height := height;
      this.cropRect := cropRect;
      this.planes := planes;
      closeCount := 0;
    }

    /** `close()`: hands the frame back to the camera. */
    method Close()
      modifies this
      ensures closeCount == old(closeCount) + 1
    {
      closeCount := closeCount + 1;
    }
  }
}
