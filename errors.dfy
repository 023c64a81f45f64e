/** The kernel's failures, as tags. Every one of them is a C++ exception in the
    source; the message text is not modelled. */
module Errors {

  datatype Error =
    | NotANumber          // string constructor: the text fails is_number
    | NegativeValue       // int constructor: a negative value
    | NegativeDifference  // operator-: the subtrahend is larger
    | LengthError         // operator/: the quotient vector gets a negative size

  datatype Result<T> = Ok(value: T) | Err(error: Error)
}
