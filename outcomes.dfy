/** Option values and the replies a request handler can give. */
module Outcomes {

  datatype Option<+T> = None | Some(value: T)

  /** A handler's reply. Each error constructor stands for one HTTP status the
      controllers send: Unauthenticated for 401, NotFound for 404, Forbidden for
      403. StoreFailure stands for a query the document store rejects; the
      status the client then receives is outside this model. */
  datatype Reply<+T> =
    | Ok(value: T)
    | Unauthenticated
    | NotFound
    | Forbidden
    | StoreFailure
}
