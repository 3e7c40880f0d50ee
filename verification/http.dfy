/** What the clients read from an HTTP response.  Sending a request and
    decoding a body belong to `reqwest` and `serde`, outside this model: a
    response is given as its status, its body read as text, and its body
    decoded as the type the client asks for. */
module Http {
  import opened Wrappers

  /** A response: `text` is `None` when reading the body failed, `decoded`
      is what `response.json()` gives. */
  datatype Response<T> = Response(status: int, text: Option<string>, decoded: Result<T, Error>)

  /** `StatusCode::is_success`: 200 to 299. */
  predicate IsSuccess(status: int) {
    200 <= status <= 299
  }

  /** The common shape of the clients' response handling: a non-success
      status becomes `Error::Api` with the body text (or `fallback` when the
      text cannot be read); otherwise the decoded body, or its error. */
  function Checked<T>(r: Response<T>, fallback: string): (out: Result<T, Error>)
    ensures !IsSuccess(r.status) ==> out == Failure(Api(r.status, r.text.GetOr(fallback)))
    ensures IsSuccess(r.status) ==> out == r.decoded
  {
    if !IsSuccess(r.status) then Failure(Api(r.status, r.text.GetOr(fallback))) else r.decoded
  }
}
