/** The exceptions the session client lets escape to its caller. */
module Failures {

  datatype Failure =
      /** `ValueError("pool_management_endpoint is not set")` from `_build_url`. */
    | EndpointNotSet
      /** Whatever the identity backend raised while issuing a token. */
    | CredentialFailure(reason: string)
      /** `requests.HTTPError` from `raise_for_status`, for the given status code. */
    | HttpError(status: int)
      /** The response body is not a JSON object (`response.json()` or `.get` fails). */
    | NotJsonObject
      /** `.get` called on a value that is not a dictionary (`AttributeError`). */
    | NotAMapping
}
