/** Result shapes shared by the model: Kotlin's nullable values and the
    exceptions a JVM call may end with. */
module Outcomes {

  /** A Kotlin nullable value: `None` is `null`. */
  datatype Option<+T> = None | Some(value: T)

  /** The exceptions the modelled code throws or catches. */
  datatype Exception =
    /** Any of the runtime exceptions java.nio.ByteBuffer raises for an
        out-of-range cursor or copy (IllegalArgumentException,
        IndexOutOfBoundsException, BufferUnderflowException); no caller in
        the modelled code tells them apart. */
    | BufferAccess
    /** java.io.IOException, the one exception the pipeline catches. */
    | IOException
    /** kotlin's `require` failure. */
    | IllegalArgument(message: string)
    /** androidx.camera's ImageCaptureException, handed to `onError` when
        the camera could not take a picture. */
    | ImageCapture
    /** Anything else a collaborator outside the model may throw. */
    | Foreign

  /** How a JVM call ends: it returns a value or throws. */
  datatype Outcome<+T> = Returned(value: T) | Thrown(exception: Exception)
}
