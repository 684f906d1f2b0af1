/** The error side of every handler's response: an HTTP status code and the message of the JSON
    body `{"status": "error", "message": ...}`. */
module Api {
  import opened Wrappers

  datatype ApiError = ApiError(code: nat, message: string)

  /** The response Flask gives when a handler raises: status 500 with its stock message. */
  const InternalError := ApiError(500, "Internal Server Error")

  /** A request field counts as missing when it is absent, null or empty (Python's `not x`). */
  predicate Missing<T(==)>(x: Option<T>, empty: T) {
    x.None? || x.value == empty
  }
}
