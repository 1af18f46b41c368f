/** Failure values of the pipeline: the only exception the sweep can raise is a
    float division by zero, when the index range is empty. */
module Outcomes {

  datatype Error = ZeroDivisionError

  datatype Result<T> = Success(value: T) | Failure(error: Error)
}
