/**
  The boundary to httpx and the JSON decoder: what an HTTP POST can come back
  with.  The network and the decoder themselves are not modelled; their
  results are inputs.
 */
module Http {
  import opened Wrappers

  /** A value produced by Python's JSON decoder (`resp.json()`). */
  datatype Json =
    | JNull
    | JBool(b: bool)
    | JNumber(literal: string)
    | JString(s: string)
    | JArray(items: seq<Json>)
    | JObject(fields: map<string, Json>)

  /**
    An `httpx.Response` as far as this code looks at it: the status code and
    body text (used by the error messages), httpx's `is_success` flag, and
    the decoded body (`None` when `resp.json()` cannot decode the text).
   */
  datatype Response = Response(statusCode: nat, text: string, isSuccess: bool, body: Option<Json>)

  /** The outcome of `client.post(...)`: an `httpx.HTTPError` or a response. */
  datatype PostResult =
    | TransportError(cause: string)
    | Received(response: Response)
}
