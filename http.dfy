/** What a request handler sends back: a status code and either the JSON
    body of a success or the `{ error, ... }` body of a failure. */
module Http {

  /** The error bodies the handlers send, with the extra keys some of them
      carry. */
  datatype ErrorBody =
    | Error(message: string)
    | UnavailablePair(message: string, itemId: int, sizeId: int)
    | ShortStock(message: string, itemId: int, sizeId: int, requested: int, available: int)
    | Duplicate(message: string, existingId: int)

  datatype Response<T> =
    | Ok(status: int, body: T)
    | Err(status: int, error: ErrorBody)
}
