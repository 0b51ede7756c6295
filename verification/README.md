# TriChromaran capture-and-recombine core in Dafny

TriChromaran takes three photographs in a row, one per colour filter. It
turns each camera frame into a bitmap and keeps only that frame's colour
channel. It then recombines the red, green and blue channels into one colour
picture and saves it to the MediaStore. This project models that core, in
`ImageExtensions.kt` and `viewmodel/CameraViewModel.kt`, and proves what it
does.

- `outcomes.dfy` (`Outcomes`): Kotlin nullables (`Option`), the exceptions
  the code throws or catches, and `Outcome` (returned or thrown).
- `color.dfy` (`Color`): packed ARGB_8888 ints as 32-bit vectors, with the
  `android.graphics.Color` accessors and `Color.rgb`.
- `bitmaps.dfy` (`Bitmaps`): bitmaps as values with `createChannelBitmap`
  and `combineRGBChannels`. The latter is a method with the source's pixel
  loop, proved against the function `Combined`.
- `frames.dfy` (`Frames`): the camera frame (`ImageProxy`) as a class with
  its format, size, crop rectangle and planes. Its `close()` count is
  mutable state.
- `nv21.dfy` (`Nv21`): `yuv420toNV21` is imperative. It has the source's
  plane, row and column loops over a zero-initialised `array<bv8>`, a
  scratch row, and the ByteBuffer cursor. It is proved to fail exactly when
  a buffer access is out of range, and otherwise to produce the NV21 layout,
  which fixes every byte.
- `image_extensions.dfy` (`ImageExtensions`): `imageProxyToBitmap` and
  `saveColorChannelToImage`. The platform decoders (YuvImage to JPEG to
  BitmapFactory, and BitmapFactory on JPEG bytes) are function parameters.
- `camera.dfy` (`Camera`): `CameraUiState` and the `CameraViewModel` class.
  - Its mutable state is `uiState` and a ghost log of events: emissions,
    capture requests, delays, the combine call, the MediaStore insert, the
    write, the record and the delete.
  - `Valid()` says the state flow holds the last state emitted.
  - Each suspend function appends a specified sequence of events. Lemmas
    about projections of the log state what a session emits, requests,
    waits for, combines, records and deletes.

The outside world is a set of parameters:
- what the camera delivers for each of the three requests (a frame or an
  ImageCaptureException);
- the decoders;
- whether the MediaStore insert gives a URI;
- how the write goes (written, no output stream, or an IOException).

The model follows the code as written:
- A session starts whatever the current state is; nothing requires Ready.
- A null capture (unsupported format, or decoder returning null) does not
  stop the remaining captures. The null check comes after all three.
- Nothing in the session catches a capture that throws (onError, or a
  non-IO exception from the conversion) or the exception of
  combineRGBChannels on mismatched sizes. The model stops the session at
  that point, with no further event and the state left at Capturing (see
  "Left out" for what the app does instead).
- A null capture and a null insert URI leave the state at Capturing. Only
  an IOException during the save leads to Error, and then to Ready.
- The decoder for YUV frames is given the frame's full width and height,
  not the crop's, as written.

## Model

| member | source | states |
|---|---|---|
| Color.Rgb | app/src/main/java/dev/mathewsmobile/trichromarancompose/ImageExtensions.kt:198 | `Color.rgb(r, g, b)` is opaque (alpha 0xFF) and its red, green and blue components read back as r, g and b |
| Bitmaps.IsolatePixel | app/src/main/java/dev/mathewsmobile/trichromarancompose/ImageExtensions.kt:133-152 | the 0/1 colour matrix of a channel keeps alpha and that channel's component and sets the other two components to 0 |
| Bitmaps.CreateChannelBitmap | app/src/main/java/dev/mathewsmobile/trichromarancompose/ImageExtensions.kt:132-168 | createChannelBitmap returns a bitmap of the original's width and height (valid when the original is) in which every pixel keeps its alpha and the selected component, with the two other components 0 |
| Bitmaps.CreateChannelBitmapIdempotent | app/src/main/java/dev/mathewsmobile/trichromarancompose/ImageExtensions.kt:132-168 | isolating a channel of an already isolated bitmap changes nothing |
| Bitmaps.Combined | app/src/main/java/dev/mathewsmobile/trichromarancompose/ImageExtensions.kt:170-181 | combineRGBChannels throws IllegalArgumentException("Input bitmaps must have the same dimensions") exactly when the three widths or heights differ, and otherwise returns a valid bitmap of the red input's size |
| Bitmaps.CombinedPixels | app/src/main/java/dev/mathewsmobile/trichromarancompose/ImageExtensions.kt:193-199 | every combined pixel is opaque and has the red component of the red input's pixel, the green of the green input's and the blue of the blue input's at the same index |
| Bitmaps.CombineRgbChannels | app/src/main/java/dev/mathewsmobile/trichromarancompose/ImageExtensions.kt:170-204 | the size check followed by the pixel loop returns exactly the value `Combined` specifies, including the exception |
| Bitmaps.CombineIsolatedChannels | app/src/main/java/dev/mathewsmobile/trichromarancompose/ImageExtensions.kt:30 | combining the red, green and blue isolations of three captures gives the same image as combining the unfiltered captures, so isolation loses nothing the compositor reads |
| Bitmaps.PrimariesCombineToWhite | app/src/main/java/dev/mathewsmobile/trichromarancompose/ImageExtensions.kt:193-199 | opaque pure red, green and blue captures of one size combine to opaque white |
| Frames.ImageProxy.Close | app/src/main/java/dev/mathewsmobile/trichromarancompose/ImageExtensions.kt:38 | `close()` counts one more close of the frame |
| Nv21.BulkGet | app/src/main/java/dev/mathewsmobile/trichromarancompose/ImageExtensions.kt:94 | `buffer.get(dst, offset, length)` succeeds exactly when the range fits `dst` and enough bytes remain after the cursor; it then copies those bytes, and it leaves every other byte of `dst` (all of it on failure) unchanged |
| Nv21.ScatterRow | app/src/main/java/dev/mathewsmobile/trichromarancompose/ImageExtensions.kt:99-102 | sample `col` of the scratch row, taken every `pixelStride` bytes, lands at `channelOffset + col * outputStride`; the cursor ends `w * outputStride` further on and nothing outside those positions changes |
| Nv21.CopyRow | app/src/main/java/dev/mathewsmobile/trichromarancompose/ImageExtensions.kt:91-103 | one row is a single bulk get when both strides are 1 and a get into the scratch row plus the scatter otherwise; it succeeds exactly when that get fits, then holds the row's samples from the buffer at their output positions and has touched nothing else |
| Nv21.CopyPlane | app/src/main/java/dev/mathewsmobile/trichromarancompose/ImageExtensions.kt:89-107 | positioning at the crop corner and reading h rows `rowStride` apart succeeds exactly when every cursor move and get stays in range (`RowsReadable`); then every sample of the plane sits at its output position and nothing outside the plane's positions changed |
| Nv21.ReadPlane | app/src/main/java/dev/mathewsmobile/trichromarancompose/ImageExtensions.kt:82-88 | plane i is read with the crop corner and size shifted right by 0 for Y and 1 for U and V; it succeeds exactly when the plane is readable and then leaves the whole plane copied |
| Nv21.Geometry | app/src/main/java/dev/mathewsmobile/trichromarancompose/ImageExtensions.kt:57-60 | the Y plane is the crop and U and V are half its width and height; the output array of `width * height * 12 / 8` bytes holds the Y samples followed by the interleaved chroma |
| Nv21.PlanesDisjoint | app/src/main/java/dev/mathewsmobile/trichromarancompose/ImageExtensions.kt:63-80 | the three planes write disjoint output positions: Y below `width * height`, V at even and U at odd distances from it |
| Nv21.Nv21Layout | app/src/main/java/dev/mathewsmobile/trichromarancompose/ImageExtensions.kt:54-110 | the byte-by-byte array `Nv21` has the NV21 layout: Y packed, V and U interleaved after it, zero after the chroma |
| Nv21.Nv21Unique | app/src/main/java/dev/mathewsmobile/trichromarancompose/ImageExtensions.kt:54-110 | the NV21 layout fixes every byte: any array with it is the array `Nv21` |
| Nv21.Yuv420ToNv21 | app/src/main/java/dev/mathewsmobile/trichromarancompose/ImageExtensions.kt:54-110 | yuv420toNV21 returns exactly when every plane's reads stay in range and throws a buffer exception otherwise; what it returns has the NV21 layout and equals `Nv21` |
| ImageExtensions.Conversion | app/src/main/java/dev/mathewsmobile/trichromarancompose/ImageExtensions.kt:42-51 | imageProxyToBitmap: an unreadable YUV frame throws; a readable one is decoded from its NV21 array with the frame's width and height; a JPEG frame is decoded from plane 0; any other format gives null; a bitmap from decoders that only produce valid bitmaps is valid |
| ImageExtensions.ImageProxyToBitmap | app/src/main/java/dev/mathewsmobile/trichromarancompose/ImageExtensions.kt:42-51 | the dispatch on the frame format returns exactly what `Conversion` specifies |
| ImageExtensions.ChannelResult | app/src/main/java/dev/mathewsmobile/trichromarancompose/ImageExtensions.kt:21-37 | a decoded bitmap becomes its channel bitmap of the same size with only that channel left, null stays null, an IOException becomes null, and any other exception escapes unchanged |
| ImageExtensions.SaveColorChannelToImage | app/src/main/java/dev/mathewsmobile/trichromarancompose/ImageExtensions.kt:21-40 | saveColorChannelToImage returns or throws what `ChannelResult` of the conversion gives, and closes the frame exactly once on every path |
| Camera.CaptureOf | app/src/main/java/dev/mathewsmobile/trichromarancompose/viewmodel/CameraViewModel.kt:101-124 | takePictureAsync resumes with an ImageCaptureException when the camera reports an error and otherwise with what saveColorChannelToImage gives, which never throws an IOException; a present bitmap has only its own channel left |
| Camera.LatestStateAppend | app/src/main/java/dev/mathewsmobile/trichromarancompose/viewmodel/CameraViewModel.kt:50-51 | the state flow holds the last state emitted: events that emit nothing leave it alone, and otherwise it is the last state they emit |
| Camera.SaveResult | app/src/main/java/dev/mathewsmobile/trichromarancompose/viewmodel/CameraViewModel.kt:155-171 | saveImageToExternalStorage returns the inserted URI exactly when the insert gave one and the write did not throw, and null otherwise |
| Camera.FinishSteps | app/src/main/java/dev/mathewsmobile/trichromarancompose/viewmodel/CameraViewModel.kt:126-131 | emitFinishedThenReady emits Done on success and Error("Something went wrong") otherwise, then Ready, with one 500 ms delay in between, and combines, records and deletes nothing |
| Camera.SaveEmissions | app/src/main/java/dev/mathewsmobile/trichromarancompose/viewmodel/CameraViewModel.kt:152-171 | a save with a URI emits Done then Ready, or Error then Ready when the write threw; a save without one emits nothing |
| Camera.SavePacing | app/src/main/java/dev/mathewsmobile/trichromarancompose/viewmodel/CameraViewModel.kt:152-171 | a save waits only for the 500 ms settle delay, and only when it got a URI |
| Camera.SaveMilestones | app/src/main/java/dev/mathewsmobile/trichromarancompose/viewmodel/CameraViewModel.kt:152-171 | a save with a URI records it before Done and Ready, or deletes it before Error and Ready when the write threw; a save without one records, deletes and emits nothing |
| Camera.WrittenMilestones | app/src/main/java/dev/mathewsmobile/trichromarancompose/viewmodel/CameraViewModel.kt:156-162 | after a successful write the URI is recorded, then Done and Ready are emitted |
| Camera.NoOutputStreamMilestones | app/src/main/java/dev/mathewsmobile/trichromarancompose/viewmodel/CameraViewModel.kt:157-162 | when no output stream opens, nothing is written but the URI is still recorded, then Done and Ready are emitted |
| Camera.WriteFailedMilestones | app/src/main/java/dev/mathewsmobile/trichromarancompose/viewmodel/CameraViewModel.kt:165-170 | when the write throws an IOException the URI is deleted, then Error and Ready are emitted, and nothing is recorded |
| Camera.RequestsPrefix | app/src/main/java/dev/mathewsmobile/trichromarancompose/viewmodel/CameraViewModel.kt:77-81 | the captures are requested Red, Green, Blue with a delay before Green and before Blue, up to and including the first capture that throws |
| Camera.SessionEmissions | app/src/main/java/dev/mathewsmobile/trichromarancompose/viewmodel/CameraViewModel.kt:73-96 | a session emits Capturing and then Done (or Error when the write threw) and Ready exactly when all three captures are bitmaps of one size and the insert gave a URI; otherwise it emits Capturing only |
| Camera.SessionFinalState | app/src/main/java/dev/mathewsmobile/trichromarancompose/viewmodel/CameraViewModel.kt:73-96 | whatever the state before, a session ends in Ready when it reached the save with a URI and in Capturing otherwise |
| Camera.SessionPacing | app/src/main/java/dev/mathewsmobile/trichromarancompose/viewmodel/CameraViewModel.kt:77-81 | a session's requests and delays are the first 1, 3 or 5 steps of Red, delay, Green, delay, Blue, cut after the first capture that throws, followed by the settle delay when the save got a URI |
| Camera.SessionCombines | app/src/main/java/dev/mathewsmobile/trichromarancompose/viewmodel/CameraViewModel.kt:84-92 | combineRGBChannels is called at most once, with the red, green and blue bitmaps in that order, and exactly when all three captures are non-null bitmaps |
| Camera.SessionMilestones | app/src/main/java/dev/mathewsmobile/trichromarancompose/viewmodel/CameraViewModel.kt:84-95 | after Capturing, a session records, deletes and emits exactly what its save does when it reached the save with a URI, and nothing otherwise |
| Camera.CameraViewModel.constructor | app/src/main/java/dev/mathewsmobile/trichromarancompose/viewmodel/CameraViewModel.kt:50 | a new view model is Ready and has done nothing |
| Camera.CameraViewModel.Emit | app/src/main/java/dev/mathewsmobile/trichromarancompose/viewmodel/CameraViewModel.kt:74 | `_uiState.emit(state)` makes `state` the current state and appends its emission |
| Camera.CameraViewModel.Delay | app/src/main/java/dev/mathewsmobile/trichromarancompose/viewmodel/CameraViewModel.kt:78 | `delay(millis)` appends the wait and leaves the state alone |
| Camera.CameraViewModel.TakePictureAsync | app/src/main/java/dev/mathewsmobile/trichromarancompose/viewmodel/CameraViewModel.kt:101-124 | one capture request is logged, the result is `CaptureOf` the delivery, the delivered frame is closed once, and the state is unchanged |
| Camera.CameraViewModel.EmitFinishedThenReady | app/src/main/java/dev/mathewsmobile/trichromarancompose/viewmodel/CameraViewModel.kt:126-131 | appends `FinishEvents` and leaves the view model Ready |
| Camera.CameraViewModel.SaveImageToExternalStorage | app/src/main/java/dev/mathewsmobile/trichromarancompose/viewmodel/CameraViewModel.kt:133-173 | appends `SaveEvents`, returns `SaveResult`, and leaves the view model Ready when the insert gave a URI and its state unchanged otherwise |
| Camera.CameraViewModel.CombineAndSaveBitmaps | app/src/main/java/dev/mathewsmobile/trichromarancompose/viewmodel/CameraViewModel.kt:89-95 | logs the combine call; when the sizes match, saves the combined bitmap; the view model ends Ready when the sizes match and the insert gave a URI, unchanged otherwise |
| Camera.CameraViewModel.DelayedCapture | app/src/main/java/dev/mathewsmobile/trichromarancompose/viewmodel/CameraViewModel.kt:78-81 | `delay(delay)` followed by a capture appends the wait and the request, returns `CaptureOf` the delivery and closes the delivered frame once |
| Camera.CameraViewModel.CaptureLater | app/src/main/java/dev/mathewsmobile/trichromarancompose/viewmodel/CameraViewModel.kt:78-81 | the Green capture and, unless it threw, the Blue one: appends `LaterRequests`, returns `LaterOutcome` (the first exception or both bitmaps), closes the green frame once and the blue frame once exactly when it was requested, when the two frames are separate objects |
| Camera.CameraViewModel.CaptureChannels | app/src/main/java/dev/mathewsmobile/trichromarancompose/viewmodel/CameraViewModel.kt:74-81 | emits Capturing and makes the three requests until one throws: appends Capturing and `Requests`, returns `PhaseOutcome` (the first exception, or the three bitmaps or nulls), and closes each frame once exactly when its request was made, when the three frames are separate objects |
| Camera.CameraViewModel.TakePicturesAndCombine | app/src/main/java/dev/mathewsmobile/trichromarancompose/viewmodel/CameraViewModel.kt:65-97 | the coroutine appends exactly `SessionEvents` of the three captures and ends Ready when the session completed and Capturing otherwise, keeping the state flow equal to the last emission; each requested frame is closed once and a frame never requested is left alone, when the three frames are separate objects |
| Camera.CameraViewModel.CaptureImages | app/src/main/java/dev/mathewsmobile/trichromarancompose/viewmodel/CameraViewModel.kt:56-63 | captureImages runs one session with the same contract as takePicturesAndCombine, including the frames' close counts |

## Left out

- The platform decoders (`YuvImage.compressToJpeg` plus `BitmapFactory.decodeByteArray`, and `BitmapFactory` on JPEG bytes) are not modelled. They are parameters that may return a bitmap, null or an exception. The session contracts require `DecodesValid`: every bitmap a decoder returns is a valid Android bitmap.
- Canvas drawing through `ColorMatrixColorFilter` is modelled as its exact per-pixel effect on ARGB_8888 pixels. Premultiplied-alpha rounding and other rendering detail of the platform are not modelled.
- Coroutines, dispatchers, the single-thread camera executor and the `viewModelScope.launch` inside the capture callback are not modelled. A session runs to its end as one sequential method, and concurrent sessions are not modelled.
- Uncaught exceptions are not modelled as ending the app. Three exceptions reach no handler in the source: an ImageCaptureException resumed from `onError` (CameraViewModel.kt:119) into the capture calls at :77, :79 and :81; a non-IO exception escaping saveColorChannelToImage inside the callback's own `launch` (:107-110); and the IllegalArgumentException of combineRGBChannels on mismatched sizes (ImageExtensions.kt:172-175, called at :90-92). In the app each one reaches the uncaught-exception handler of `viewModelScope` and ends the process. The model has no process: it stops the session at that point, with no further event and the state left at Capturing.
- The delay is an integer parameter. The float computation `(1000L * delayFactor).toLong()` is not modelled.
- Logging, `printStackTrace`, the timestamped file name, the ContentValues, and the Room catalogue call (`addImageUseCase`, modelled as the `Recorded` event with `uri.toString()`) are left out or abstracted, because they do not affect the session's states or results.
- The MediaStore insert, the output stream and `bitmap.compress` are parameters. Only their outcome (URI or null; written, no stream or IOException) is modelled.
- Kotlin `Int` overflow in `width * height` and in the stride arithmetic is not modelled; integers are unbounded.
- The ByteBuffer's cursor is modelled as a local position. The cursor positions left in the frame's buffers after the call are not modelled, because the frame is closed right afterwards.
- The JPEG path decodes every byte of plane 0 from position 0 to the limit. A buffer whose cursor is not at 0 on entry is not modelled.
- All java.nio failures (a position past the limit, a bad `get` range, buffer underflow) are one exception, `BufferAccess`, because no caller tells them apart.
- A YUV_420_888 frame is taken to have exactly three planes with positive strides, and a crop rectangle inside the image, as CameraX guarantees.
- Camera.CameraViewModel.CaptureImages: states the frames' close counts only when the three deliveries carry different frame objects (`SeparateFrames`), as CameraX delivers them. The case of one frame object delivered twice is not stated.
- Camera.CameraViewModel.TakePicturesAndCombine: states the frames' close counts only under `SeparateFrames`, like CaptureImages.
- Camera.CameraViewModel.CaptureLater: states the two frames' close counts only when they are different objects, like CaptureImages.
- Camera.CameraViewModel.CaptureChannels: states the frames' close counts only under `SeparateFrames`, like CaptureImages.
