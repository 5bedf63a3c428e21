/** What a Flask view produces: a JSON response with a status code, an
    `abort(code)` (as `get_or_404` raises it), or an uncaught exception,
    which Flask turns into a 500 response. */
module Http {

  /** A JSON body: either a one-key message object such as
      `{"error": "Missing fields"}`, or a structured payload. */
  datatype Body<+T> = Message(key: string, text: string) | Payload(value: T)

  datatype Response<+T> = Response(status: int, body: Body<T>)

  datatype Outcome<+T> =
    | Returned(response: Response<T>)
    | Aborted(code: int)
    | Raised(error: string)

  function Reply<T>(status: int, key: string, text: string): Response<T> {
    Response(status, Message(key, text))
  }
}
