/** Nullable values and failure outcomes shared by the store and the service. */
module Wrappers {

  /** A value that may be absent: the model of a C# nullable reference (`T?`). */
  datatype Option<+T> = None | Some(value: T)

  /** The outcome of a store or service operation that returns nothing on success:
      `Fail` stands for the exception the operation would throw, after which the
      store is left as it was. */
  datatype Outcome<+E> = Pass | Fail(error: E)
}
