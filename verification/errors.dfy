/** Go's `error` values, as the model needs them. */
module Errors {

  /** A Go `error`: `nil`, or an error whose `Error()` text is `msg`. */
  datatype GoError = Nil | Error(msg: string)
}
