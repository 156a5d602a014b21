/** Failure-carrying values used across the model. */
module Wrappers {

  /** An optional value: a JSON field that may be absent (or null). */
  datatype Option<+T> = None | Some(value: T)

  /** The value of a computation that can fail. */
  datatype Result<+R, +E> = Success(value: R) | Failure(error: E)

  /** The outcome of a step that returns nothing but can fail. */
  datatype Outcome<+E> = Pass | Fail(error: E)
}

/** The conditions under which downloader.py stops the whole run with exit(1). */
module Errors {

  datatype FatalError =
    | InvalidUrl        // the input URL matches none of the supported prefixes
    | FetchFailed       // the metadata request failed or its body was not JSON
    | UnexpectedFormat  // the payload is neither {"post": ...} nor a list of posts
}
