/** Optional values and the results of calls that may throw or return an error. */
module Outcomes {
  datatype Option<+T> = None | Some(value: T)

  /** What a call of `Value::Get` does: it returns, it throws WrongValueType, or it
      runs a cast whose result the C++ language leaves undefined. */
  datatype Outcome<+T> = Got(value: T) | Throws | Undefined

  /** `Expected<T, QueryException>`: the error text is not modelled. */
  datatype Expected<+T> = Success(value: T) | Failure
}
