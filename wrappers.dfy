/** Option and Result, the two shapes the service layer uses for "maybe absent" and
    "success or error message" (`ApiResponse` with `success: false`). */
module Wrappers {

  datatype Option<+T> = None | Some(value: T)

  datatype Result<+T> = Success(value: T) | Failure(error: string)
}
