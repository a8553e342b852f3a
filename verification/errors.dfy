/** The exceptions the modelled worker code can raise, as values. */
module Errors {

  datatype Error =
    | SelectionOutOfRange  // torch.topk was asked for more elements than the vector holds
    | DivisionByZero       // the realised ratio was computed for a model without parameters

  datatype Result<T> = Success(value: T) | Failure(error: Error)
}
