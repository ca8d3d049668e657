/**
 * The HTTP exchanges with the session pool, seen from the client: the
 * request it posts and the response it is given. Transport, headers other
 * than the bearer token, and the parsing of JSON are not modelled; a
 * response carries the JSON object its body holds, if any.
 */
module Http {
  import opened Wrappers
  import opened Json
  import opened Utf8

  /** The body of a POST: raw bytes (`data=`) or a JSON object of strings (`json=`). */
  datatype Body = Raw(bytes: seq<Byte>) | JsonObject(fields: map<string, string>)

  /** A POST to `url`, authorised by `Bearer <bearer>`. */
  datatype Request = Request(url: string, bearer: string, body: Body)

  /** A response: its status, its bytes, and the JSON object they hold when they hold one. */
  datatype Response = Response(status: int, content: seq<Byte>, json: Option<map<string, Scalar>>)

  /** `raise_for_status()` raises for the client and server error classes, 400 to 599. */
  predicate RaisesForStatus(status: int) {
    400 <= status < 600
  }

  /**
   * The session pool. `answer(n)` is the response it gives to the n-th
   * request it receives (counting from 0); `received` is what it has been sent.
   */
  class SessionPool {
    const answer: nat -> Response
    var received: seq<Request>

    constructor (answer: nat -> Response)
      ensures this.answer == answer && received == []
    {
      this.answer := answer;
      received := [];
    }

    /** `requests.post`. */
    method Post(req: Request) returns (resp: Response)
      modifies this
      ensures received == old(received) + [req]
      ensures resp == answer(|old(received)|)
    {
      resp := answer(|received|);
      received := received + [req];
    }
  }
}
