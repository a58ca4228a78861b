/** The service's three failure kinds, with the context each carries. */
module JuiceErrors {
  import opened JavaInt

  datatype Failure =
    | AlreadyRegistered(name: string)
    | NameNotFound(name: string)
    | IdNotFound(id: int)
    | StockExceeded(id: int, amount: Int32)

  /** What a service call yields instead of throwing. */
  datatype Result<+T> = Ok(value: T) | Err(failure: Failure)
}
