/** Failure-carrying results used where the scripts raise or exit. */
module Wrappers {

  /** A value that may be absent: a missing (NaN) cell of a data frame. */
  datatype Option<+T> = None | Some(value: T)

  /** Why a script stops before producing its output. */
  datatype Failure =
    | UnknownVariable(name: string)  // `sys.exit()` on an unrecognised analysis variable
    | NotInList(item: string)        // `list.remove` of an absent element raises ValueError
    | EmptySelection                 // `.values[0]` or `np.max` on an empty selection raises
    | DegenerateScale                // dividing by a zero maximum yields NaN responses

  /** The outcome of a step that can stop the script. */
  datatype Result<+T> = Ok(value: T) | Err(failure: Failure)
}
