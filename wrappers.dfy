/** Option and Result, used for the nullable CSV column and for the failures
    of the pipeline. */
module Wrappers {

  datatype Option<+T> = None | Some(value: T)

  datatype Result<+R, +E> = Success(value: R) | Failure(error: E)

  /** The ways the data pipeline can stop without a value. */
  datatype Error =
    | RootNotFound   // no directory up to the top holds the sentinel file
    | DataNotFound   // the CSV file is absent under the project root
    | EmptyDataset   // the standard scaler is fitted on zero rows
}
