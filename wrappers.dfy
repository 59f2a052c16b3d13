/** Option and Result values, and the exceptions the library throws, as plain data. */
module Wrappers {

  datatype Option<+T> = None | Some(value: T)

  /** The exception kinds the library raises, with the parameter name the exception carries. */
  datatype Error =
    | ArgumentNull(paramName: string)         // ArgumentNullException
    | ArgumentOutOfRange(paramName: string)   // ArgumentOutOfRangeException
    | Argument(paramName: string)             // ArgumentException
    | IndexOutOfRange                         // IndexOutOfRangeException from an array index

  /** The outcome of a call that either returns a value or throws. */
  datatype Result<+T> = Success(value: T) | Failure(error: Error)
}
