/** The exceptions the pipeline can end in, as values. */
module Errors {

  /** Message of the `InvalidArgumentException` thrown by `validateSettings`. */
  const PathNotSetMessage := "Source file path not set or not valid"

  /** Message of the `InvalidArgumentException` thrown by `extractRecords`. */
  const NoRecordsMessage := "Cannot extract data from given csv file"

  datatype Error =
    | InvalidArgument(message: string)
      /** The CSV reader could not open or parse the source file. */
    | CsvReadFailure(message: string)
      /** `count / (proper + wrong)` with both counts zero. */
    | DivisionByZero
}
