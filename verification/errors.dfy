/** The exceptions the core raises, as values (valutatrade_hub/core/exceptions.py
    and the built-in ones the core raises on purpose), and the result types
    that carry them. */
module Errors {
  import opened Json

  /** Why a rate request failed (`ApiRequestError.reason`). */
  datatype ApiReason =
    | MissingApiKey
    | BadStatus(provider: string, status: int)
    | RequestFailed(provider: string)
    | RateUnavailable(fromCode: string, toCode: string)

  datatype Error =
    | InsufficientFunds(available: real, required: real, code: string)
      /** Carries the code it was given: normalised when it was a non-blank
          string, as given otherwise. */
    | CurrencyNotFound(given: Json)
    | ApiRequest(reason: ApiReason)
      /** `ValueError`, naming the argument that was rejected. */
    | ValueError(argument: string)
      /** `PermissionError`: the operation needs a logged-in session. */
    | PermissionDenied
      /** `AttributeError` or `IndexError` raised by malformed provider data. */
    | MalformedData(what: string)

  datatype Option<+T> = None | Some(value: T)

  datatype Result<+T> = Ok(value: T) | Err(error: Error) {
    predicate IsFailure() {
      Err?
    }

    function PropagateFailure<U>(): Result<U>
      requires Err?
    {
      Err(error)
    }

    function Extract(): T
      requires Ok?
    {
      value
    }
  }

  /** The result of an operation that returns nothing or raises. */
  datatype Outcome = Pass | Fail(error: Error)
}
