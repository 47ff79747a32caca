/** Shared vocabulary of the membership-card engine model: optional values,
    results, identifiers, clock values and HTTP status classes. */
module Base {

  /** A value that may be absent (Rust's `Option`). */
  datatype Option<+T> = None | Some(value: T) {
    function GetOr(default: T): T {
      match this
      case Some(v) => v
      case None => default
    }
  }

  /** A value or an error (Rust's `Result`). */
  datatype Result<+T, +E> = Ok(value: T) | Err(error: E)

  /** Database row identifiers (UUIDs in the database) are opaque naturals here. */
  type Uuid = nat

  /** Instants are whole seconds on one common clock; calendar dates are whole days. */
  type Time = int
  type Date = int

  const SecondsPerMinute: int := 60
  const SecondsPerHour: int := 60 * SecondsPerMinute
  const SecondsPerDay: int := 24 * SecondsPerHour

  /** `StatusCode::is_success`: the 2xx class. */
  predicate IsSuccess(status: int) {
    200 <= status <= 299
  }

  /** `StatusCode::is_server_error`: the 5xx class. */
  predicate IsServerError(status: int) {
    500 <= status <= 599
  }

  /** Which HTTP status a handler answers with. */
  const StatusOk: int := 200
  const StatusCreated: int := 201
  const StatusAccepted: int := 202
  const StatusNoContent: int := 204
  const StatusBadRequest: int := 400
  const StatusUnauthorized: int := 401
  const StatusForbidden: int := 403
  const StatusNotFound: int := 404
  const StatusInternalServerError: int := 500
  const StatusServiceUnavailable: int := 503
}
