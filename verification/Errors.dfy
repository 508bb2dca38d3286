/** The error values that the log reports, and results that carry them. */
module Errors {
  datatype Error =
    | Eof
    | UnexpectedEof
    | PayloadTooLarge
    | InvalidChecksum
    | InvalidFrameIndex
    | InvalidFrameHeader
    | InvalidSegmentHeader
    | OutOfBounds
    | SegmentFull
    | DiskFull
    | BatchTooLarge
    | NotContiguous
    | TooManySegments
    | NilSegment  // the source dereferences a nil segment here
    | IoFailure
    | CreateFailure  // a segment file could not be created whole
    | TrimFailure  // a write failed, and so did cutting off what it left
    | CallbackFailed

  datatype Result<+T> = Ok(value: T) | Err(error: Error) {
    predicate IsFailure() { Err? }
    function PropagateFailure<U>(): Result<U>
      requires Err?
    {
      Err(error)
    }
    function Extract(): T
      requires Ok?
    {
      value
    }
  }

  datatype Option<+T> = None | Some(value: T)
}
