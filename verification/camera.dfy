/** The capture session of CameraViewModel.kt: the UI state held in
    `_uiState`, the three filtered captures taken in a row, their
    combination and the save of the result. Every emission and every
    external step (capture request, delay, combine, MediaStore insert,
    write, record, delete) is appended to a ghost event log, so the order
    of what a session does can be stated and proved. */
module Camera {
  import opened Outcomes
  import opened Bitmaps
  import Frames
  import ImageExtensions

  /** CameraUiState. */
  datatype UiState = Ready | Capturing | Done | Error(message: string)

  /** A MediaStore content URI; `text` is `uri.toString()`. */
  datatype Uri = Uri(text: string)

  /** How writing the JPEG to the inserted URI went: written, no output
      stream (`openOutputStream` gave null, so nothing was written), or an
      IOException while opening or writing. */
  datatype WriteOutcome = Written | NoOutputStream | WriteFailed

  /** What takePictureAsync resumes with: the channel bitmap, null, or an
      exception (onError, or the conversion throwing). */
  type Capture = Outcome<Option<Bitmap>>

  /** What the camera hands to the OnImageCapturedCallback of one
      takePicture call: a frame (onCaptureSuccess) or an
      ImageCaptureException (onError). */
  datatype Delivery = Captured(image: Frames.ImageProxy) | CaptureError

  /** The objects a delivery lets takePictureAsync change: its frame. */
  function Footprint(d: Delivery): set<object> {
    if d.Captured? then {d.image} else {}
  }

  /** A frame the camera delivers satisfies what CameraX guarantees of it. */
  predicate Deliverable(d: Delivery) {
    d.Captured? ==> d.image.Valid()
  }

  /** No two deliveries carry the same frame object, as CameraX hands each
      capture callback a frame of its own. */
  predicate SeparateFrames(red: Delivery, green: Delivery, blue: Delivery) {
    (red.Captured? && green.Captured? ==> red.image != green.image) &&
    (red.Captured? && blue.Captured? ==> red.image != blue.image) &&
    (green.Captured? && blue.Captured? ==> green.image != blue.image)
  }

  /** What takePictureAsync resumes with for a delivery: onError resumes
      with its exception; onCaptureSuccess resumes with
      saveColorChannelToImage's result. A non-IO exception escaping
      saveColorChannelToImage is taken as thrown into the caller; nothing
      in the session catches it. */
  function CaptureOf(d: Delivery, channel: Channel, codecs: ImageExtensions.Codecs): (r: Capture)
    requires Deliverable(d)
    ensures d.CaptureError? ==> r == Thrown(ImageCapture)
    ensures d.Captured? ==> r == ImageExtensions.ChannelResult(ImageExtensions.Conversion(d.image, codecs), channel)
    ensures d.Captured? && r.Thrown? ==> r.exception != IOException
    ensures ImageExtensions.DecodesValid(codecs) ==> Decoded(r)
    ensures Present(r) ==> ImageExtensions.OnlyChannel(r.value.value, channel)
  {
    match d
    case CaptureError => Thrown(ImageCapture)
    case Captured(image) => ImageExtensions.ChannelResult(ImageExtensions.Conversion(image, codecs), channel)
  }

  /** One step of a session, in the order it happens. */
  datatype Event =
    | Emitted(state: UiState)
    | CaptureRequested(channel: Channel)
    | Delayed(millis: int)
    | CombineCalled(red: Bitmap, green: Bitmap, blue: Bitmap)
    | Inserted
    | Wrote(uri: Uri, bitmap: Bitmap, quality: int)
    | Recorded(path: string)
    | Deleted(uri: Uri)

  /** The message of the Error state emitted when saving fails. */
  const ErrorMessage := "Something went wrong"

  /** The JPEG quality the combined picture is compressed with. */
  const JpegQuality := 90

  /** How long Done or Error stays up before Ready, in milliseconds. */
  const SettleMillis := 500

  // ----- Projections of the event log -----

  /** The value f picks from one event, if any. */
  function Pick<U>(ev: Event, f: Event -> Option<U>): seq<U> {
    if f(ev).Some? then [f(ev).value] else []
  }

  /** The values f picks out of `e`, in order. */
  function Project<U>(e: seq<Event>, f: Event -> Option<U>): seq<U> {
    if e == [] then [] else Pick(e[0], f) + Project(e[1..], f)
  }

  lemma ProjectCons<U>(ev: Event, e: seq<Event>, f: Event -> Option<U>)
    ensures Project([ev] + e, f) == Pick(ev, f) + Project(e, f)
  {
    assert ([ev] + e)[1..] == e;
  }

  lemma AppendAssoc(a: seq<Event>, b: seq<Event>, c: seq<Event>)
    ensures a + b + c == a + (b + c)
  {
  }

  lemma AppendAssoc3(s: seq<Event>, a: seq<Event>, b: seq<Event>, c: seq<Event>)
    ensures s + a + b + c == s + (a + (b + c))
  {
  }

  lemma AppendAssoc4(s: seq<Event>, a: seq<Event>, b: seq<Event>, c: seq<Event>, d: seq<Event>)
    ensures s + a + b + c + d == s + (a + (b + (c + d)))
  {
  }

  lemma AppendPair(s: seq<Event>, a: Event, b: Event)
    ensures s + [a] + [b] == s + [a, b]
  {
  }

  lemma ProjectSingle<U>(ev: Event, f: Event -> Option<U>)
    ensures Project([ev], f) == Pick(ev, f)
  {
    assert [ev][1..] == [];
  }

  lemma {:induction false} ProjectAppend<U>(a: seq<Event>, b: seq<Event>, f: Event -> Option<U>)
    ensures Project(a + b, f) == Project(a, f) + Project(b, f)
  {
    if a != [] {
      assert (a + b)[0] == a[0];
      assert (a + b)[1..] == a[1..] + b;
      ProjectAppend(a[1..], b, f);
    } else {
      assert a + b == b;
    }
  }

  function EmissionOf(ev: Event): Option<UiState> {
    if ev.Emitted? then Some(ev.state) else None
  }

  /** Capture requests and delays. */
  function PacingOf(ev: Event): Option<Event> {
    if ev.CaptureRequested? || ev.Delayed? then Some(ev) else None
  }

  function CombineOf(ev: Event): Option<Event> {
    if ev.CombineCalled? then Some(ev) else None
  }

  /** Records, deletions and emitted states. */
  function MilestoneOf(ev: Event): Option<Event> {
    if ev.Recorded? || ev.Deleted? || ev.Emitted? then Some(ev) else None
  }

  /** The states emitted in `e`, in order. */
  function Emissions(e: seq<Event>): seq<UiState> {
    Project(e, EmissionOf)
  }

  /** The value of `_uiState` after the events of `log`: the last state
      emitted, or the initial Ready. */
  function LatestState(log: seq<Event>): UiState {
    var emitted := Emissions(log);
    if emitted == [] then Ready else emitted[|emitted| - 1]
  }

  /** Events that emit nothing leave the state alone; after events that
      emit, the state is the last one they emit. */
  lemma LatestStateAppend(log: seq<Event>, e: seq<Event>)
    ensures Emissions(e) == [] ==> LatestState(log + e) == LatestState(log)
    ensures Emissions(e) != [] ==> LatestState(log + e) == Emissions(e)[|Emissions(e)| - 1]
  {
    ProjectAppend(log, e, EmissionOf);
  }

  // ----- What each step appends -----

  /** emitFinishedThenReady: Done or Error, the settle delay, then Ready. */
  function FinishEvents(success: bool): seq<Event> {
    [Emitted(if success then Done else Error(ErrorMessage)), Delayed(SettleMillis), Emitted(Ready)]
  }

  /** saveImageToExternalStorage: the MediaStore insert; with a URI, the
      write, then either the record and Done, or on an IOException the
      deletion of the URI and Error. */
  function SaveEvents(bitmap: Bitmap, insert: Option<Uri>, write: WriteOutcome): seq<Event> {
    [Inserted] +
    match insert
    case None => []
    case Some(uri) =>
      match write
      case Written => [Wrote(uri, bitmap, JpegQuality)] + ([Recorded(uri.text)] + FinishEvents(true))
      case NoOutputStream => [Recorded(uri.text)] + FinishEvents(true)
      case WriteFailed => [Deleted(uri)] + FinishEvents(false)
  }

  /** What saveImageToExternalStorage returns: the URI, unless it was null
      or the write threw. */
  function SaveResult(insert: Option<Uri>, write: WriteOutcome): (r: Option<Uri>)
    ensures r.Some? <==> insert.Some? && write != WriteFailed
    ensures r.Some? ==> r == insert
  {
    if insert.Some? && write != WriteFailed then insert else None
  }

  /** A capture that delivered a bitmap. */
  predicate Present(c: Capture) {
    c.Returned? && c.value.Some?
  }

  /** Android bitmaps have a positive size and all their pixels. */
  predicate Decoded(c: Capture) {
    Present(c) ==> c.value.value.Valid()
  }

  /** All three captures delivered a bitmap. */
  predicate AllPresent(red: Capture, green: Capture, blue: Capture) {
    Present(red) && Present(green) && Present(blue)
  }

  /** The session reached the save with a URI: three bitmaps of one size
      and a non-null insert. */
  predicate Completed(red: Capture, green: Capture, blue: Capture, insert: Option<Uri>) {
    AllPresent(red, green, blue) &&
    SameDimensions(red.value.value, green.value.value, blue.value.value) &&
    insert.Some?
  }

  /** How many captures are requested: a capture that throws ends the session. */
  function RequestCount(red: Capture, green: Capture): nat {
    if red.Thrown? then 1 else if green.Thrown? then 2 else 3
  }

  /** The three bitmaps (or nulls) of the capture phase, or the exception of
      the first capture that throws, which leaves the coroutine. */
  function PhaseOutcome(red: Capture, green: Capture, blue: Capture): Outcome<(Option<Bitmap>, Option<Bitmap>, Option<Bitmap>)> {
    if red.Thrown? then Thrown(red.exception)
    else if green.Thrown? then Thrown(green.exception)
    else if blue.Thrown? then Thrown(blue.exception)
    else Returned((red.value, green.value, blue.value))
  }

  /** The tail of a session with three bitmaps: the combine call and, when it
      returns, the save. */
  function CombineAndSave(red: Bitmap, green: Bitmap, blue: Bitmap, insert: Option<Uri>, write: WriteOutcome): seq<Event>
    requires red.Valid() && green.Valid() && blue.Valid()
  {
    [CombineCalled(red, green, blue)] +
    match Combined(red, green, blue)
    case Thrown(_) => []
    case Returned(combined) => SaveEvents(combined, insert, write)
  }

  /** The capture requests of a session: Red, then a delay and Green, then
      a delay and Blue, stopping after a capture that throws (the exception
      leaves the coroutine). A null capture does not stop the requests. */
  function Requests(red: Capture, green: Capture, delay: int): seq<Event> {
    [CaptureRequested(Red)] +
    if red.Thrown? then [] else
    [Delayed(delay), CaptureRequested(Green)] +
    if green.Thrown? then [] else
    [Delayed(delay), CaptureRequested(Blue)]
  }

  /** The requests after Red once it has not thrown: Green, then Blue
      unless Green threw. */
  function LaterRequests(green: Capture, delay: int): seq<Event> {
    [Delayed(delay), CaptureRequested(Green)] +
    if green.Thrown? then [] else [Delayed(delay), CaptureRequested(Blue)]
  }

  /** The Green and Blue bitmaps (or nulls), or the exception of the first
      of the two captures that throws. */
  function LaterOutcome(green: Capture, blue: Capture): Outcome<(Option<Bitmap>, Option<Bitmap>)> {
    if green.Thrown? then Thrown(green.exception)
    else if blue.Thrown? then Thrown(blue.exception)
    else Returned((green.value, blue.value))
  }

  /** What the coroutine launched by takePicturesAndCombine appends: emit
      Capturing; request the three captures; only when all three delivered a
      bitmap (none threw and none is null), combine them and save the result. */
  function SessionEvents(red: Capture, green: Capture, blue: Capture, delay: int,
                         insert: Option<Uri>, write: WriteOutcome): seq<Event>
    requires Decoded(red) && Decoded(green) && Decoded(blue)
  {
    [Emitted(Capturing)] + Requests(red, green, delay) + SessionTail(red, green, blue, insert, write)
  }

  /** What a session does after its captures: combine and save when all
      three delivered a bitmap, nothing otherwise. */
  function SessionTail(red: Capture, green: Capture, blue: Capture, insert: Option<Uri>, write: WriteOutcome): seq<Event>
    requires Decoded(red) && Decoded(green) && Decoded(blue)
  {
    match (red, green, blue)
    case (Returned(Some(r)), Returned(Some(g)), Returned(Some(b))) => CombineAndSave(r, g, b, insert, write)
    case _ => []
  }

  // ----- Projections of the steps -----

  /** A projection that keeps none of the events of `e` yields nothing. */
  lemma {:induction false} ProjectNone<U>(e: seq<Event>, f: Event -> Option<U>)
    requires forall i :: 0 <= i < |e| ==> f(e[i]).None?
    ensures Project(e, f) == []
  {
    if e != [] {
      ProjectNone(e[1..], f);
    }
  }

  /** A projection that keeps every event of `e` as it is yields `e`. */
  lemma {:induction false} ProjectAll(e: seq<Event>, f: Event -> Option<Event>)
    requires forall i :: 0 <= i < |e| ==> f(e[i]) == Some(e[i])
    ensures Project(e, f) == e
  {
    if e != [] {
      ProjectAll(e[1..], f);
      assert e == [e[0]] + e[1..];
    }
  }

  lemma ProjectFinish<U>(success: bool, f: Event -> Option<U>)
    ensures Project(FinishEvents(success), f) ==
      Pick(Emitted(if success then Done else Error(ErrorMessage)), f) + Pick(Delayed(SettleMillis), f) + Pick(Emitted(Ready), f)
  {
    var e := FinishEvents(success);
    assert e == [e[0]] + ([e[1]] + ([e[2]] + []));
    ProjectCons(e[0], [e[1]] + ([e[2]] + []), f);
    ProjectCons(e[1], [e[2]] + [], f);
    ProjectCons(e[2], [], f);
  }

  /** A save without a URI does nothing after the insert. */
  lemma ProjectUnsaved<U>(bitmap: Bitmap, write: WriteOutcome, f: Event -> Option<U>)
    ensures Project(SaveEvents(bitmap, None, write), f) == Pick(Inserted, f)
  {
    ProjectCons(Inserted, [], f);
  }

  lemma ProjectWritten<U>(bitmap: Bitmap, uri: Uri, f: Event -> Option<U>)
    ensures Project(SaveEvents(bitmap, Some(uri), Written), f) ==
      Pick(Inserted, f) + (Pick(Wrote(uri, bitmap, JpegQuality), f) + (Pick(Recorded(uri.text), f) +
      Project(FinishEvents(true), f)))
  {
    ProjectCons(Inserted, [Wrote(uri, bitmap, JpegQuality)] + ([Recorded(uri.text)] + FinishEvents(true)), f);
    ProjectCons(Wrote(uri, bitmap, JpegQuality), [Recorded(uri.text)] + FinishEvents(true), f);
    ProjectCons(Recorded(uri.text), FinishEvents(true), f);
  }

  lemma ProjectNoOutputStream<U>(bitmap: Bitmap, uri: Uri, f: Event -> Option<U>)
    ensures Project(SaveEvents(bitmap, Some(uri), NoOutputStream), f) ==
      Pick(Inserted, f) + (Pick(Recorded(uri.text), f) + Project(FinishEvents(true), f))
  {
    ProjectCons(Inserted, [Recorded(uri.text)] + FinishEvents(true), f);
    ProjectCons(Recorded(uri.text), FinishEvents(true), f);
  }

  lemma ProjectWriteFailed<U>(bitmap: Bitmap, uri: Uri, f: Event -> Option<U>)
    ensures Project(SaveEvents(bitmap, Some(uri), WriteFailed), f) ==
      Pick(Inserted, f) + (Pick(Deleted(uri), f) + Project(FinishEvents(false), f))
  {
    ProjectCons(Inserted, [Deleted(uri)] + FinishEvents(false), f);
    ProjectCons(Deleted(uri), FinishEvents(false), f);
  }

  lemma ProjectCombineAndSave<U>(red: Bitmap, green: Bitmap, blue: Bitmap, insert: Option<Uri>, write: WriteOutcome,
                                 f: Event -> Option<U>)
    requires red.Valid() && green.Valid() && blue.Valid()
    ensures Project(CombineAndSave(red, green, blue, insert, write), f) ==
      Pick(CombineCalled(red, green, blue), f) +
      if SameDimensions(red, green, blue) then Project(SaveEvents(Combined(red, green, blue).value, insert, write), f) else []
  {
    var combined := Combined(red, green, blue);
    ProjectCons(CombineCalled(red, green, blue), if combined.Thrown? then [] else SaveEvents(combined.value, insert, write), f);
  }

  /** The projection of a session is that of its opening emission, of its
      requests and of its tail, in that order. */
  lemma ProjectSession<U>(red: Capture, green: Capture, blue: Capture, delay: int,
                          insert: Option<Uri>, write: WriteOutcome, f: Event -> Option<U>)
    requires Decoded(red) && Decoded(green) && Decoded(blue)
    ensures Project(SessionEvents(red, green, blue, delay, insert, write), f) ==
      Pick(Emitted(Capturing), f) + Project(Requests(red, green, delay), f) +
      Project(SessionTail(red, green, blue, insert, write), f)
  {
    ProjectThree(Emitted(Capturing), Requests(red, green, delay), SessionTail(red, green, blue, insert, write), f);
  }

  lemma ProjectThree<U>(ev: Event, a: seq<Event>, b: seq<Event>, f: Event -> Option<U>)
    ensures Project([ev] + a + b, f) == Pick(ev, f) + Project(a, f) + Project(b, f)
  {
    ProjectAppend([ev] + a, b, f);
    ProjectCons(ev, a, f);
  }

  /** The requests of a session are the first 1, 3 or 5 steps of the full
      pacing. */
  lemma RequestsPrefix(red: Capture, green: Capture, delay: int)
    ensures Requests(red, green, delay) == FullPacing(delay)[..2 * RequestCount(red, green) - 1]
  {
    var full := FullPacing(delay);
    if red.Thrown? {
      assert full[..1] == [CaptureRequested(Red)];
    } else if green.Thrown? {
      assert full[..3] == [CaptureRequested(Red)] + [Delayed(delay), CaptureRequested(Green)];
    } else {
      assert full[..5] == full;
    }
  }

  /** The requests of a session are nothing but pacing. */
  lemma RequestsOnlyPacing(red: Capture, green: Capture, delay: int)
    ensures Project(Requests(red, green, delay), PacingOf) == Requests(red, green, delay)
    ensures Emissions(Requests(red, green, delay)) == []
    ensures Project(Requests(red, green, delay), CombineOf) == []
    ensures Project(Requests(red, green, delay), MilestoneOf) == []
  {
    var e := Requests(red, green, delay);
    ProjectAll(e, PacingOf);
    ProjectNone(e, EmissionOf);
    ProjectNone(e, CombineOf);
    ProjectNone(e, MilestoneOf);
  }

  // ----- Properties of a session -----

  /** Requests and delays of a full capture phase. */
  function FullPacing(delay: int): seq<Event> {
    [CaptureRequested(Red), Delayed(delay), CaptureRequested(Green), Delayed(delay), CaptureRequested(Blue)]
  }

  /** emitFinishedThenReady emits Done on success and Error("Something went
      wrong") otherwise, then Ready, with the settle delay in between, and
      records, deletes and combines nothing. */
  lemma FinishSteps(success: bool)
    ensures Emissions(FinishEvents(success)) == [if success then Done else Error(ErrorMessage), Ready]
    ensures Project(FinishEvents(success), PacingOf) == [Delayed(SettleMillis)]
    ensures Project(FinishEvents(success), CombineOf) == []
    ensures Project(FinishEvents(success), MilestoneOf) ==
      [Emitted(if success then Done else Error(ErrorMessage)), Emitted(Ready)]
  {
    ProjectFinish(success, EmissionOf);
    ProjectFinish(success, PacingOf);
    ProjectFinish(success, CombineOf);
    ProjectFinish(success, MilestoneOf);
  }

  /** saveImageToExternalStorage ends in Done and Ready when it got a URI
      and the write did not throw, in Error and Ready when the write threw,
      and emits nothing when the insert gave no URI. */
  lemma SaveEmissions(bitmap: Bitmap, insert: Option<Uri>, write: WriteOutcome)
    ensures Emissions(SaveEvents(bitmap, insert, write)) ==
      if insert.None? then [] else [if SaveResult(insert, write).Some? then Done else Error(ErrorMessage), Ready]
  {
    match insert
    case None => ProjectUnsaved(bitmap, write, EmissionOf);
    case Some(uri) =>
      match write
      case Written => ProjectWritten(bitmap, uri, EmissionOf); ProjectFinish(true, EmissionOf);
      case NoOutputStream => ProjectNoOutputStream(bitmap, uri, EmissionOf); ProjectFinish(true, EmissionOf);
      case WriteFailed => ProjectWriteFailed(bitmap, uri, EmissionOf); ProjectFinish(false, EmissionOf);
  }

  /** A save waits only for the settle delay of emitFinishedThenReady, and
      only when it got a URI. */
  lemma SavePacing(bitmap: Bitmap, insert: Option<Uri>, write: WriteOutcome)
    ensures Project(SaveEvents(bitmap, insert, write), PacingOf) ==
      if insert.None? then [] else [Delayed(SettleMillis)]
  {
    match insert
    case None => ProjectUnsaved(bitmap, write, PacingOf);
    case Some(uri) =>
      match write
      case Written => ProjectWritten(bitmap, uri, PacingOf); ProjectFinish(true, PacingOf);
      case NoOutputStream => ProjectNoOutputStream(bitmap, uri, PacingOf); ProjectFinish(true, PacingOf);
      case WriteFailed => ProjectWriteFailed(bitmap, uri, PacingOf); ProjectFinish(false, PacingOf);
  }

  /** The records, deletions and states of a save: with a URI, the record
      of the URI, Done and Ready, or, when the write threw, the deletion of
      the URI, Error and Ready; without one, nothing. */
  function SaveMilestoneTrace(insert: Option<Uri>, write: WriteOutcome): seq<Event> {
    match insert
    case None => []
    case Some(uri) =>
      if write != WriteFailed then [Recorded(uri.text), Emitted(Done), Emitted(Ready)]
      else [Deleted(uri), Emitted(Error(ErrorMessage)), Emitted(Ready)]
  }

  /** A save never calls combineRGBChannels. */
  lemma SaveCombinesNothing(bitmap: Bitmap, insert: Option<Uri>, write: WriteOutcome)
    ensures Project(SaveEvents(bitmap, insert, write), CombineOf) == []
  {
    ProjectNone(SaveEvents(bitmap, insert, write), CombineOf);
  }

  /** A save with a URI records it before Done, or, when the write threw,
      deletes it before Error; a save without one records nothing. */
  lemma SaveMilestones(bitmap: Bitmap, insert: Option<Uri>, write: WriteOutcome)
    ensures Project(SaveEvents(bitmap, insert, write), MilestoneOf) == SaveMilestoneTrace(insert, write)
  {
    match insert
    case None => ProjectUnsaved(bitmap, write, MilestoneOf);
    case Some(uri) =>
      match write
      case Written => WrittenMilestones(bitmap, uri);
      case NoOutputStream => NoOutputStreamMilestones(bitmap, uri);
      case WriteFailed => WriteFailedMilestones(bitmap, uri);
  }

  lemma WrittenMilestones(bitmap: Bitmap, uri: Uri)
    ensures Project(SaveEvents(bitmap, Some(uri), Written), MilestoneOf) ==
      [Recorded(uri.text), Emitted(Done), Emitted(Ready)]
  {
    ProjectWritten(bitmap, uri, MilestoneOf);
    ProjectFinish(true, MilestoneOf);
  }

  lemma NoOutputStreamMilestones(bitmap: Bitmap, uri: Uri)
    ensures Project(SaveEvents(bitmap, Some(uri), NoOutputStream), MilestoneOf) ==
      [Recorded(uri.text), Emitted(Done), Emitted(Ready)]
  {
    ProjectNoOutputStream(bitmap, uri, MilestoneOf);
    ProjectFinish(true, MilestoneOf);
  }

  lemma WriteFailedMilestones(bitmap: Bitmap, uri: Uri)
    ensures Project(SaveEvents(bitmap, Some(uri), WriteFailed), MilestoneOf) ==
      [Deleted(uri), Emitted(Error(ErrorMessage)), Emitted(Ready)]
  {
    ProjectWriteFailed(bitmap, uri, MilestoneOf);
    ProjectFinish(false, MilestoneOf);
  }

  /** After its captures a session ends in Done or Error and Ready exactly
      when it completed. */
  lemma TailEmissions(red: Capture, green: Capture, blue: Capture, insert: Option<Uri>, write: WriteOutcome)
    requires Decoded(red) && Decoded(green) && Decoded(blue)
    ensures Emissions(SessionTail(red, green, blue, insert, write)) ==
      if Completed(red, green, blue, insert) then [if write != WriteFailed then Done else Error(ErrorMessage), Ready] else []
  {
    match (red, green, blue)
    case (Returned(Some(r)), Returned(Some(g)), Returned(Some(b))) =>
      ProjectCombineAndSave(r, g, b, insert, write, EmissionOf);
      if SameDimensions(r, g, b) {
        SaveEmissions(Combined(r, g, b).value, insert, write);
      }
    case _ =>
  }

  /** After its captures a session calls combineRGBChannels once, with the
      three bitmaps, when all three are present, and waits only for the
      settle delay of a completed save. */
  lemma TailPacing(red: Capture, green: Capture, blue: Capture, insert: Option<Uri>, write: WriteOutcome)
    requires Decoded(red) && Decoded(green) && Decoded(blue)
    ensures Project(SessionTail(red, green, blue, insert, write), PacingOf) ==
      if Completed(red, green, blue, insert) then [Delayed(SettleMillis)] else []
    ensures Project(SessionTail(red, green, blue, insert, write), CombineOf) ==
      if AllPresent(red, green, blue) then [CombineCalled(red.value.value, green.value.value, blue.value.value)] else []
  {
    match (red, green, blue)
    case (Returned(Some(r)), Returned(Some(g)), Returned(Some(b))) =>
      ProjectCombineAndSave(r, g, b, insert, write, PacingOf);
      ProjectCombineAndSave(r, g, b, insert, write, CombineOf);
      if SameDimensions(r, g, b) {
        SavePacing(Combined(r, g, b).value, insert, write);
        SaveCombinesNothing(Combined(r, g, b).value, insert, write);
      }
    case _ =>
  }

  /** After its captures a session records, deletes and emits what its save
      does, when it completed, and nothing otherwise. */
  lemma TailMilestones(red: Capture, green: Capture, blue: Capture, insert: Option<Uri>, write: WriteOutcome)
    requires Decoded(red) && Decoded(green) && Decoded(blue)
    ensures Project(SessionTail(red, green, blue, insert, write), MilestoneOf) ==
      if Completed(red, green, blue, insert) then SaveMilestoneTrace(insert, write) else []
  {
    match (red, green, blue)
    case (Returned(Some(r)), Returned(Some(g)), Returned(Some(b))) =>
      ProjectCombineAndSave(r, g, b, insert, write, MilestoneOf);
      if SameDimensions(r, g, b) {
        SaveMilestones(Combined(r, g, b).value, insert, write);
      }
    case _ =>
  }

  /** The states a session emits: Capturing, then, only when it reached the
      save with a URI, Done (or Error when the write threw) and Ready. A
      null or failed capture, mismatched sizes or a null URI leave the
      state at Capturing. */
  lemma SessionEmissions(red: Capture, green: Capture, blue: Capture, delay: int,
                         insert: Option<Uri>, write: WriteOutcome)
    requires Decoded(red) && Decoded(green) && Decoded(blue)
    ensures Emissions(SessionEvents(red, green, blue, delay, insert, write)) ==
      [Capturing] +
      if Completed(red, green, blue, insert) then [if write != WriteFailed then Done else Error(ErrorMessage), Ready] else []
  {
    ProjectSession(red, green, blue, delay, insert, write, EmissionOf);
    RequestsOnlyPacing(red, green, delay);
    TailEmissions(red, green, blue, insert, write);
  }

  /** A session ends in Ready when it reached the save with a URI and stays
      in Capturing otherwise, whatever the state it started from. */
  lemma SessionFinalState(log: seq<Event>, red: Capture, green: Capture, blue: Capture, delay: int,
                          insert: Option<Uri>, write: WriteOutcome)
    requires Decoded(red) && Decoded(green) && Decoded(blue)
    ensures LatestState(log + SessionEvents(red, green, blue, delay, insert, write)) ==
      if Completed(red, green, blue, insert) then Ready else Capturing
  {
    SessionEmissions(red, green, blue, delay, insert, write);
    LatestStateAppend(log, SessionEvents(red, green, blue, delay, insert, write));
  }

  /** The captures are requested in the order Red, Green, Blue, with a delay
      after Red and after Green and none after Blue, up to the first capture
      that throws; the only other delay is the settle delay of a finished
      save. */
  lemma SessionPacing(red: Capture, green: Capture, blue: Capture, delay: int,
                      insert: Option<Uri>, write: WriteOutcome)
    requires Decoded(red) && Decoded(green) && Decoded(blue)
    ensures Project(SessionEvents(red, green, blue, delay, insert, write), PacingOf) ==
      FullPacing(delay)[..2 * RequestCount(red, green) - 1] +
      if Completed(red, green, blue, insert) then [Delayed(SettleMillis)] else []
  {
    var requests := Requests(red, green, delay);
    ProjectSession(red, green, blue, delay, insert, write, PacingOf);
    assert Pick(Emitted(Capturing), PacingOf) == [];
    RequestsOnlyPacing(red, green, delay);
    RequestsPrefix(red, green, delay);
    TailPacing(red, green, blue, insert, write);
    assert [] + requests == requests;
  }

  /** combineRGBChannels is called at most once, with the red, green and
      blue bitmaps in that order, and exactly when all three are non-null. */
  lemma SessionCombines(red: Capture, green: Capture, blue: Capture, delay: int,
                        insert: Option<Uri>, write: WriteOutcome)
    requires Decoded(red) && Decoded(green) && Decoded(blue)
    ensures Project(SessionEvents(red, green, blue, delay, insert, write), CombineOf) ==
      if AllPresent(red, green, blue) then [CombineCalled(red.value.value, green.value.value, blue.value.value)] else []
  {
    ProjectSession(red, green, blue, delay, insert, write, CombineOf);
    RequestsOnlyPacing(red, green, delay);
    TailPacing(red, green, blue, insert, write);
  }

  /** The outcome of a session as records, deletions and states: after
      Capturing, a saved image is recorded under its URI before Done and
      Ready; a failed write deletes the URI before Error and Ready; any
      earlier stop records, deletes and emits nothing more. */
  lemma SessionMilestones(red: Capture, green: Capture, blue: Capture, delay: int,
                          insert: Option<Uri>, write: WriteOutcome)
    requires Decoded(red) && Decoded(green) && Decoded(blue)
    ensures Project(SessionEvents(red, green, blue, delay, insert, write), MilestoneOf) ==
      [Emitted(Capturing)] + if Completed(red, green, blue, insert) then SaveMilestoneTrace(insert, write) else []
  {
    ProjectSession(red, green, blue, delay, insert, write, MilestoneOf);
    RequestsOnlyPacing(red, green, delay);
    TailMilestones(red, green, blue, insert, write);
  }

  // ----- The view model -----

  /** CameraViewModel: `uiState` is `_uiState`; `log` is everything the
      view model has emitted and asked of the outside world so far. */
  class CameraViewModel {
    var uiState: UiState
    ghost var log: seq<Event>

    /** The state flow holds the last state emitted. */
    ghost predicate Valid()
      reads this
    {
      uiState == LatestState(log)
    }

    /** A fresh view model is Ready and has done nothing. */
    constructor ()
      ensures Valid() && uiState == Ready && log == []
    {
      uiState := Ready;
      log := [];
    }

    /** `_uiState.emit(state)`. */
    method Emit(state: UiState)
      requires Valid()
      modifies this
      ensures Valid() && uiState == state
      ensures log == old(log) + [Emitted(state)]
    {
      ProjectSingle(Emitted(state), EmissionOf);
      LatestStateAppend(log, [Emitted(state)]);
      uiState := state;
      log := log + [Emitted(state)];
    }

    /** Records a step that emits no state. */
    ghost method Note(ev: Event)
      requires Valid() && !ev.Emitted?
      modifies this
      ensures Valid() && uiState == old(uiState)
      ensures log == old(log) + [ev]
    {
      ProjectSingle(ev, EmissionOf);
      LatestStateAppend(log, [ev]);
      log := log + [ev];
    }

    /** `delay(millis)`: suspends the coroutine; the state is left alone. */
    method Delay(millis: int)
      requires Valid()
      modifies this
      ensures Valid() && uiState == old(uiState)
      ensures log == old(log) + [Delayed(millis)]
    {
      Note(Delayed(millis));
    }

    /** takePictureAsync: asks the camera for one picture and resumes with
        the channel bitmap of the frame it delivers, closing that frame. */
    method TakePictureAsync(delivery: Delivery, channel: Channel, codecs: ImageExtensions.Codecs) returns (r: Capture)
      requires Valid() && Deliverable(delivery)
      modifies this, Footprint(delivery)
      ensures Valid() && uiState == old(uiState)
      ensures log == old(log) + [CaptureRequested(channel)]
      ensures r == CaptureOf(delivery, channel, codecs)
      ensures delivery.Captured? ==> delivery.image.closeCount == old(delivery.image.closeCount) + 1
    {
      Note(CaptureRequested(channel));
      match delivery
      case CaptureError =>
        r := Thrown(ImageCapture);
      case Captured(image) =>
        r := ImageExtensions.SaveColorChannelToImage(image, channel, codecs);
    }

    /** The delay(timeBetweenImages) before a capture, then the capture. */
    method DelayedCapture(delivery: Delivery, channel: Channel, delay: int, codecs: ImageExtensions.Codecs) returns (r: Capture)
      requires Valid() && Deliverable(delivery)
      modifies this, Footprint(delivery)
      ensures Valid() && uiState == old(uiState)
      ensures log == old(log) + [Delayed(delay), CaptureRequested(channel)]
      ensures r == CaptureOf(delivery, channel, codecs)
      ensures delivery.Captured? ==> delivery.image.closeCount == old(delivery.image.closeCount) + 1
    {
      Delay(delay);
      r := TakePictureAsync(delivery, channel, codecs);
      AppendPair(old(log), Delayed(delay), CaptureRequested(channel));
    }

    /** emitFinishedThenReady: Done or Error, half a second, then Ready. */
    method EmitFinishedThenReady(success: bool)
      requires Valid()
      modifies this
      ensures Valid() && uiState == Ready
      ensures log == old(log) + FinishEvents(success)
    {
      var state := if success then Done else Error(ErrorMessage);
      Emit(state);
      Delay(SettleMillis);
      Emit(Ready);
      assert log == old(log) + [Emitted(state)] + [Delayed(SettleMillis)] + [Emitted(Ready)];
    }

    /** saveImageToExternalStorage: inserts a MediaStore entry and, when it
        gets a URI, writes the bitmap as a JPEG, records the URI and reports
        Done; an IOException deletes the entry and reports Error. */
    method SaveImageToExternalStorage(bitmap: Bitmap, insert: Option<Uri>, write: WriteOutcome) returns (r: Option<Uri>)
      requires Valid()
      modifies this
      ensures Valid() && uiState == (if insert.Some? then Ready else old(uiState))
      ensures log == old(log) + SaveEvents(bitmap, insert, write)
      ensures r == SaveResult(insert, write)
    {
      Note(Inserted);
      var uri := insert;
      match uri
      case None =>
        r := None;
      case Some(u) =>
        match write
        case Written =>
          Note(Wrote(u, bitmap, JpegQuality));
          Note(Recorded(u.text));
          EmitFinishedThenReady(true);
          AppendAssoc4(old(log), [Inserted], [Wrote(u, bitmap, JpegQuality)], [Recorded(u.text)], FinishEvents(true));
          r := uri;
        case NoOutputStream =>
          Note(Recorded(u.text));
          EmitFinishedThenReady(true);
          AppendAssoc3(old(log), [Inserted], [Recorded(u.text)], FinishEvents(true));
          r := uri;
        case WriteFailed =>
          Note(Deleted(u));
          EmitFinishedThenReady(false);
          AppendAssoc3(old(log), [Inserted], [Deleted(u)], FinishEvents(false));
          r := None;
    }

    /** The end of the coroutine of takePicturesAndCombine once all three
        captures are bitmaps: combineRGBChannels, whose exception leaves the
        coroutine, then saveImageToExternalStorage with the combined bitmap. */
    method CombineAndSaveBitmaps(red: Bitmap, green: Bitmap, blue: Bitmap, insert: Option<Uri>, write: WriteOutcome)
      requires Valid() && red.Valid() && green.Valid() && blue.Valid()
      modifies this
      ensures Valid()
      ensures log == old(log) + CombineAndSave(red, green, blue, insert, write)
      ensures uiState == if SameDimensions(red, green, blue) && insert.Some? then Ready else old(uiState)
    {
      Note(CombineCalled(red, green, blue));
      var combined := CombineRgbChannels(red, green, blue);
      if combined.Thrown? {
        return;
      }
      var _ := SaveImageToExternalStorage(combined.value, insert, write);
    }

    /** The Green and Blue captures of the capture phase, each after the
        delay; Blue is requested only when Green did not throw. */
    method CaptureLater(green: Delivery, blue: Delivery, delay: int, codecs: ImageExtensions.Codecs)
      returns (later: Outcome<(Option<Bitmap>, Option<Bitmap>)>)
      requires Valid() && Deliverable(green) && Deliverable(blue)
      modifies this, Footprint(green), Footprint(blue)
      ensures Valid() && uiState == old(uiState)
      ensures log == old(log) + LaterRequests(CaptureOf(green, Green, codecs), delay)
      ensures later == LaterOutcome(CaptureOf(green, Green, codecs), CaptureOf(blue, Blue, codecs))
      ensures SeparateFrames(CaptureError, green, blue) && green.Captured? ==>
        green.image.closeCount == old(green.image.closeCount) + 1
      ensures SeparateFrames(CaptureError, green, blue) && blue.Captured? ==>
        blue.image.closeCount == old(blue.image.closeCount) +
          if CaptureOf(green, Green, codecs).Thrown? then 0 else 1
    {
      var greenBitmap := DelayedCapture(green, Green, delay, codecs);
      if greenBitmap.Thrown? {
        assert LaterRequests(greenBitmap, delay) == [Delayed(delay), CaptureRequested(Green)] + [];
        return Thrown(greenBitmap.exception);
      }
      var blueBitmap := DelayedCapture(blue, Blue, delay, codecs);
      AppendAssoc(old(log), [Delayed(delay), CaptureRequested(Green)], [Delayed(delay), CaptureRequested(Blue)]);
      if blueBitmap.Thrown? {
        return Thrown(blueBitmap.exception);
      }
      return Returned((greenBitmap.value, blueBitmap.value));
    }

    /** The capture phase of the coroutine of takePicturesAndCombine:
        Capturing, then the Red, Green and Blue captures `delay`
        milliseconds apart. A capture that throws ends the phase with its
        exception; each requested frame is closed once. */
    method CaptureChannels(red: Delivery, green: Delivery, blue: Delivery, delay: int, codecs: ImageExtensions.Codecs)
      returns (captures: Outcome<(Option<Bitmap>, Option<Bitmap>, Option<Bitmap>)>)
      requires Valid() && Deliverable(red) && Deliverable(green) && Deliverable(blue)
      modifies this, Footprint(red), Footprint(green), Footprint(blue)
      ensures Valid() && uiState == Capturing
      ensures log == old(log) + ([Emitted(Capturing)] + Requests(CaptureOf(red, Red, codecs), CaptureOf(green, Green, codecs), delay))
      ensures captures == PhaseOutcome(CaptureOf(red, Red, codecs), CaptureOf(green, Green, codecs), CaptureOf(blue, Blue, codecs))
      ensures SeparateFrames(red, green, blue) && red.Captured? ==>
        red.image.closeCount == old(red.image.closeCount) + 1
      ensures SeparateFrames(red, green, blue) && green.Captured? ==>
        green.image.closeCount == old(green.image.closeCount) +
          if RequestCount(CaptureOf(red, Red, codecs), CaptureOf(green, Green, codecs)) >= 2 then 1 else 0
      ensures SeparateFrames(red, green, blue) && blue.Captured? ==>
        blue.image.closeCount == old(blue.image.closeCount) +
          if RequestCount(CaptureOf(red, Red, codecs), CaptureOf(green, Green, codecs)) == 3 then 1 else 0
    {
      ghost var rc, gc := CaptureOf(red, Red, codecs), CaptureOf(green, Green, codecs);
      ghost var start := log;
      Emit(Capturing);
      var redBitmap := TakePictureAsync(red, Red, codecs);
      ghost var first := [Emitted(Capturing)] + [CaptureRequested(Red)];
      assert log == start + first;
      if redBitmap.Thrown? {
        assert Requests(rc, gc, delay) == [CaptureRequested(Red)];
        return Thrown(redBitmap.exception);
      }
      var later := CaptureLater(green, blue, delay, codecs);
      AppendAssoc(start, first, LaterRequests(gc, delay));
      assert Requests(rc, gc, delay) == [CaptureRequested(Red)] + LaterRequests(gc, delay);
      if later.Thrown? {
        return Thrown(later.exception);
      }
      return Returned((redBitmap.value, later.value.0, later.value.1));
    }

    /** The coroutine of takePicturesAndCombine, run to its end: the
        capture phase and, when all three captures are bitmaps, their
        combination and its save. The view model ends Ready when the save
        got a URI and stays Capturing otherwise. */
    method TakePicturesAndCombine(red: Delivery, green: Delivery, blue: Delivery, delay: int,
                                  codecs: ImageExtensions.Codecs, insert: Option<Uri>, write: WriteOutcome)
      requires Valid() && Deliverable(red) && Deliverable(green) && Deliverable(blue)
      requires ImageExtensions.DecodesValid(codecs)
      modifies this, Footprint(red), Footprint(green), Footprint(blue)
      ensures Valid()
      ensures log == old(log) + SessionEvents(CaptureOf(red, Red, codecs), CaptureOf(green, Green, codecs),
                                              CaptureOf(blue, Blue, codecs), delay, insert, write)
      ensures uiState == if Completed(CaptureOf(red, Red, codecs), CaptureOf(green, Green, codecs),
                                      CaptureOf(blue, Blue, codecs), insert) then Ready else Capturing
      ensures SeparateFrames(red, green, blue) && red.Captured? ==>
        red.image.closeCount == old(red.image.closeCount) + 1
      ensures SeparateFrames(red, green, blue) && green.Captured? ==>
        green.image.closeCount == old(green.image.closeCount) +
          if RequestCount(CaptureOf(red, Red, codecs), CaptureOf(green, Green, codecs)) >= 2 then 1 else 0
      ensures SeparateFrames(red, green, blue) && blue.Captured? ==>
        blue.image.closeCount == old(blue.image.closeCount) +
          if RequestCount(CaptureOf(red, Red, codecs), CaptureOf(green, Green, codecs)) == 3 then 1 else 0
    {
      ghost var rc, gc, bc := CaptureOf(red, Red, codecs), CaptureOf(green, Green, codecs), CaptureOf(blue, Blue, codecs);
      ghost var start := log;
      ghost var phase := [Emitted(Capturing)] + Requests(rc, gc, delay);
      ghost var tail := SessionTail(rc, gc, bc, insert, write);
      assert SessionEvents(rc, gc, bc, delay, insert, write) == phase + tail;
      var captures := CaptureChannels(red, green, blue, delay, codecs);
      if captures.Thrown? {
        assert tail == [] && phase + tail == phase;
        return;
      }
      match captures.value
      case (Some(r), Some(g), Some(b)) =>
        assert tail == CombineAndSave(r, g, b, insert, write);
        CombineAndSaveBitmaps(r, g, b, insert, write);
        AppendAssoc(start, phase, tail);
      case _ =>
        assert tail == [] && phase + tail == phase;
    }

    /** captureImages: starts a session in the view model's own scope. */
    method CaptureImages(red: Delivery, green: Delivery, blue: Delivery, delay: int,
                         codecs: ImageExtensions.Codecs, insert: Option<Uri>, write: WriteOutcome)
      requires Valid() && Deliverable(red) && Deliverable(green) && Deliverable(blue)
      requires ImageExtensions.DecodesValid(codecs)
      modifies this, Footprint(red), Footprint(green), Footprint(blue)
      ensures Valid()
      ensures log == old(log) + SessionEvents(CaptureOf(red, Red, codecs), CaptureOf(green, Green, codecs),
                                              CaptureOf(blue, Blue, codecs), delay, insert, write)
      ensures uiState == if Completed(CaptureOf(red, Red, codecs), CaptureOf(green, Green, codecs),
                                      CaptureOf(blue, Blue, codecs), insert) then Ready else Capturing
      ensures SeparateFrames(red, green, blue) && red.Captured? ==>
        red.image.closeCount == old(red.image.closeCount) + 1
      ensures SeparateFrames(red, green, blue) && green.Captured? ==>
        green.image.closeCount == old(green.image.closeCount) +
          if RequestCount(CaptureOf(red, Red, codecs), CaptureOf(green, Green, codecs)) >= 2 then 1 else 0
      ensures SeparateFrames(red, green, blue) && blue.Captured? ==>
        blue.image.closeCount == old(blue.image.closeCount) +
          if RequestCount(CaptureOf(red, Red, codecs), CaptureOf(green, Green, codecs)) == 3 then 1 else 0
    {
      TakePicturesAndCombine(red, green, blue, delay, codecs, insert, write);
    }
  }
}
