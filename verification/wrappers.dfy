/** Option and Result with the failure-propagation members `:-` needs, and
    the error values the clients and sync jobs return. */
module Wrappers {

  datatype Option<+T> = None | Some(value: T) {

    predicate IsFailure() {
      None?
    }

    function PropagateFailure<U>(): Option<U>
      requires None?
    {
      None
    }

    function Extract(): T
      requires Some?
    {
      value
    }

    /** `unwrap_or`: the held value, or `default` when there is none. */
    function GetOr(default: T): T {
      match this
      case Some(v) => v
      case None => default
    }

    /** `ok_or(e)`: the held value, or the failure `e` when there is none. */
    function ToResult<E>(e: E): Result<T, E> {
      match this
      case Some(v) => Success(v)
      case None => Failure(e)
    }
  }

  datatype Result<+T, +E> = Success(value: T) | Failure(error: E) {

    predicate IsFailure() {
      Failure?
    }

    function PropagateFailure<U>(): Result<U, E>
      requires Failure?
    {
      Failure(error)
    }

    function Extract(): T
      requires Success?
    {
      value
    }
  }

  /** The errors a job can end with.  `Transport` stands for every failure of
      a network call or response decoding in a crate outside this model;
      `Api` is a client's `Error::Api { status, message }`; `Failed` is an
      error the sync code raises itself with `anyhow!`. */
  datatype Error =
    | Transport
    | Api(status: int, message: string)
    | Failed(message: string)
}
