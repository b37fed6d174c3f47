/** The replies a route handler sends back. */
module Http {

  /** What a handler produces for one request.
      - `Reply`: a success status with a JSON body;
      - `Error`: an error status with the `message` the handler sends;
      - `Unhandled`: the handler threw outside any try/catch, so the promise
        rejection escapes Express and no reply is ever sent. */
  datatype Response<T> =
    | Reply(code: nat, body: T)
    | Error(code: nat, message: string)
    | Unhandled

  const OK: nat := 200
  const CREATED: nat := 201
  const BAD_REQUEST: nat := 400
  const NOT_FOUND: nat := 404
  const CONFLICT: nat := 409
  const SERVER_ERROR: nat := 500
}
