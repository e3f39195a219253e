/** Failure-compatible wrappers shared by the modules of the word-aggregation model. */
module Wrappers {

  /** An optional value, as for the optional `common` command-line argument. */
  datatype Option<+T> = None | Some(value: T)

  /** Either a value or the error the analyser raises instead of producing it. */
  datatype Result<+R, +E> = Success(value: R) | Failure(error: E)
}

/**
 * The three exceptions of document_analyser.py, as values. Each one ends the run
 * without output.
 */
module Errors {

  datatype Error =
    | LinesNumber      // LinesNumberException: the result size is not numeric
    | FilesNotPresent  // FilesNotPresentException: no .txt file was found
    | FilesEmpty       // FilesEmptyException: the files yield no words at all
}
