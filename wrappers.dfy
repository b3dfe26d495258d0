/** Failure-carrying values shared by the renderer's modules. */
module Wrappers {

  /** A value that may be absent: a missing command-line argument, a colour
      name the colour table does not know. */
  datatype Option<+T> = None | Some(value: T)

  /** The value an operation produces, or the error that aborts the run. */
  datatype Result<+T, +E> = Ok(value: T) | Err(error: E)
}

/** Every way one run of the image generator can abort. Each of them ends the
    process; none is caught. */
module Errors {

  datatype Error =
    | NegativeSize                       // the canvas library refuses a negative width or height
    | InvalidColour(spec: string)        // the colour table cannot resolve a record's colour string
    | OutOfRange(x: nat, y: nat)         // a record names a pixel outside the canvas
    | MissingCleanupArgument             // the fourth command-line argument is read but absent
    | MissingFile(name: string)          // the previous frame's file to delete does not exist
    | UnsavableImage(name: string)       // a PNG file cannot hold a canvas with no columns or no rows
}
