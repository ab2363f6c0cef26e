/** Values shared by the task-table modules. */
module Wrappers {

  /** A value that may be absent: a nullable column or a cancelled prompt. */
  datatype Option<+T> = None | Some(value: T)

  /** JavaScript falsiness of a possibly-null string: null, undefined or "". */
  predicate Falsy(s: Option<string>)
  {
    s.None? || s.value == ""
  }
}
