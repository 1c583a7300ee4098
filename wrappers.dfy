/** Null-or-value and pass-or-fail wrappers used throughout the model.
    `None` stands for a Java `null` argument; `Fail` for a thrown exception. */
module Wrappers {

  datatype Option<+T> = None | Some(value: T)

  datatype Outcome<+E> = Pass | Fail(error: E)
}
