// The exceptions the modelled Java code throws, and the result type that
// carries them instead of a thrown exception.

module Outcomes {

  datatype Exception =
    | IllegalArgumentException
    | IllegalStateException
    | IndexOutOfBoundsException
    | ArrayIndexOutOfBoundsException
    | NegativeArraySizeException
    | NullPointerException
    | StackOverflowError
    | RuntimeException(message: string)

  datatype Result<T> = Ok(value: T) | Err(error: Exception)
}
