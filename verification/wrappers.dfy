/** Failure-compatible wrappers shared by every module of the model. */
module Wrappers {

  /** A value that may be absent. */
  datatype Option<+T> = None | Some(value: T)

  /** Either a value or the error that stopped the computation; usable with `:-`. */
  datatype Result<+R, +E> = Success(value: R) | Failure(error: E) {

    predicate IsFailure() {
      Failure?
    }

    function PropagateFailure<U>(): Result<U, E>
      requires Failure?
    {
      Failure(error)
    }

    function Extract(): R
      requires Success?
    {
      value
    }
  }
}

/** The exceptions the schedule builder can raise. Any of them aborts the whole build. */
module Faults {

  datatype Fault =
    | FormatFault      // int.Parse of an empty token, as in "1,,2"
    | OverflowFault    // int.Parse of a digit run above Int32.MaxValue
    | WordIndexFault   // wordList[i] past the last word of the line
    | OrderIndexFault  // order[index] past the end of the rotation
    | PlayerIndexFault // _playerList[order[index]] past the last player
}
