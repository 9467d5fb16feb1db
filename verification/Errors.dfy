/** Error outcomes. A Java exception becomes an `Err` carrying its kind and
    message; a Java null becomes `None`. */
module Errors {

  datatype Option<T> = None | Some(value: T)

  datatype Error =
    | IllegalArgument(message: string)
    | IllegalState(message: string)

  datatype Result<T> = Ok(value: T) | Err(error: Error)
}
