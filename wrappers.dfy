/** Option and Result, the failure-carrying values used across the model. */
module Wrappers {

  datatype Option<+T> = None | Some(value: T)

  datatype Result<+R, +E> = Success(value: R) | Failure(error: E)
}

/** The ways a request to the quiz controller can fail. */
module Errors {

  datatype Failure =
    | NotFound                // unknown (or, for quiz generation, inactive) test code: HTTP 404
    | ValidationError         // missing request parameters: HTTP 400
    | Unauthorized            // the upstream model rejected the API key (status 403): HTTP 403
    | UpstreamFailure         // any other failed upstream call: HTTP 500
    | InvalidUpstreamResponse // the upstream reply carries no usable text: HTTP 500
    | InvalidJson             // the cleaned text is not JSON: HTTP 500
    | EmptyQuiz               // the parsed value is not a non-empty array: HTTP 500
}
