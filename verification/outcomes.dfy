/** Failures of the `/analyze` endpoint and a failure-compatible result type.

    Every `HTTPException` the endpoint can raise is one `ApiError`; its HTTP
    status is given by `Status`.
 */
module Outcomes {

  datatype ApiError =
    | InvalidFileType       // upload is not `image/...`
    | NoFaceDetected        // the encoder found no face
    | RecordCountNotFound   // the count row is missing
    | RecordCountFailed     // the count query failed
    | ChunkFetchFailed      // a page query failed
    | NoMatchingRecords     // the sweep produced no candidate

  /** The HTTP status code each failure is reported with. */
  function Status(e: ApiError): int {
    match e
    case InvalidFileType => 400
    case NoFaceDetected => 400
    case RecordCountNotFound => 404
    case RecordCountFailed => 500
    case ChunkFetchFailed => 500
    case NoMatchingRecords => 404
  }

  /** Either a value or the failure that aborted the request; usable with `:-`. */
  datatype Result<+T> = Ok(value: T) | Err(error: ApiError) {

    predicate IsFailure() {
      Err?
    }

    function PropagateFailure<U>(): Result<U>
      requires Err?
    {
      Err(error)
    }

    function Extract(): T
      requires Ok?
    {
      value
    }
  }
}
