/** Optional values, the error taxonomy of the shop's request handlers, the
    (new state, reply) pair every handler returns, and one arithmetic step the
    price totals of both the server and the client rely on. */
module Outcomes {

  /** An optional value: the authenticated user, an omitted request field. */
  datatype Option<+T> = None | Some(value: T) {

    /** The value, or `default` when absent (Python's `dict.get(key, default)`). */
    function GetOr(default: T): T {
      match this
      case Some(v) => v
      case None => default
    }
  }

  /** Why a handler refused a request. */
  datatype ApiError =
    | Unauthorized      // HTTP 401: no authenticated user
    | NotFound          // HTTP 404: no such product, cart line or order for this user
    | BadRequest        // HTTP 400: the order is already delivered
    | ValidationError   // registration data rejected
    | ServerError       // an exception the handler does not catch (HTTP 500)

  /** A handler's reply: a value, or an error. */
  datatype Result<+T> = Ok(value: T) | Err(error: ApiError)

  /** The state after a request together with the reply sent back. */
  datatype Handled<+S, +T> = Handled(state: S, reply: Result<T>)

  /** One more unit in a price-times-quantity subtotal adds one unit price. */
  lemma MulStep(a: int, q: int)
    ensures a * (q + 1) == a * q + a
  {
  }
}
